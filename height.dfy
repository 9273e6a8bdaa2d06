/** The older layout calculator `RangesData` (src/height.ts): the same
    forward pass as `LayoutData`, but it keeps only the top of the first
    rendered item, has no content offset in its positions, reads the raw
    scroll top, and its measurement walk stops at the first item that is
    not above the viewport and changes nothing but `scrollDelta`. */
module Height {
  import opened Common
  import opened Scroll
  import opened Measure
  import Layout

  /** The fields of a `RangesData` that its methods update.
      `firstRenderedItemTop` is -1 until an item renders. */
  datatype RangesState = RangesState(
    compoundedHeight: int,
    firstRenderedItemTop: int,
    renderedHeights: OMap<Id, int>,
    scrollDelta: int)
  {
    ghost predicate Valid() {
      renderedHeights.Valid()
    }

    /** `isToRender`. */
    predicate IsToRender(id: Id) {
      renderedHeights.Has(id)
    }

    /** `isAboveViewport`: against the raw scroll top; `scrollDelta` plays
        no part. */
    predicate IsAboveViewport(v: View, pos: int) {
      pos < v.scrollTop
    }
  }

  /** A fresh `RangesData`. */
  function Initial(): (s: RangesState)
    ensures s.Valid() && s.firstRenderedItemTop < 0 && s.renderedHeights.Size() == 0
  {
    RangesState(0, -1, EmptyMap(), 0)
  }

  /* ---------------------------------------------------------------------- */
  /* The forward pass                                                        */
  /* ---------------------------------------------------------------------- */

  /** `addRendered`. */
  function WithRendered(s: RangesState, id: Id, height: int): (r: RangesState)
    ensures s.Valid() ==> r.Valid()
  {
    s.(firstRenderedItemTop := if s.firstRenderedItemTop < 0 then s.compoundedHeight else s.firstRenderedItemTop,
       compoundedHeight := s.compoundedHeight + height,
       renderedHeights := s.renderedHeights.Set(id, height))
  }

  /** `addNonRendered`. */
  function WithNonRendered(s: RangesState, height: int): RangesState {
    s.(compoundedHeight := s.compoundedHeight + height)
  }

  /** `process`: the same buffered overlap test as `LayoutData`'s. */
  function ProcessStep(s: RangesState, v: View, bufferSize: int, id: Id, height: int): RangesState {
    if Layout.RendersAt(v, bufferSize, s.compoundedHeight, height) then WithRendered(s, id, height)
    else WithNonRendered(s, height)
  }

  /** `process` called for each id in order. */
  function ProcessAll(s: RangesState, v: View, bufferSize: int, ids: seq<Id>, heights: seq<int>): RangesState
    requires |ids| == |heights|
  {
    if ids == [] then s
    else
      var n := |ids| - 1;
      ProcessStep(ProcessAll(s, v, bufferSize, ids[..n], heights[..n]), v, bufferSize, ids[n], heights[n])
  }

  /** One `process` call adds the height to `compoundedHeight` whether or
      not the item renders, never touches `scrollDelta`, records the height
      exactly when the item renders, and fixes `firstRenderedItemTop` once it
      is set. */
  lemma ProcessStepFacts(s: RangesState, v: View, bufferSize: int, id: Id, height: int)
    requires s.Valid()
    ensures var r := ProcessStep(s, v, bufferSize, id, height);
            var renders := Layout.RendersAt(v, bufferSize, s.compoundedHeight, height);
            && r.Valid()
            && r.compoundedHeight == s.compoundedHeight + height
            && r.scrollDelta == s.scrollDelta
            && (r.IsToRender(id) <==> renders || s.IsToRender(id))
            && (renders ==> r.renderedHeights.Get(id) == Some(height))
            && (forall j :: j != id ==> r.renderedHeights.Get(j) == s.renderedHeights.Get(j))
            && (s.firstRenderedItemTop >= 0 ==> r.firstRenderedItemTop == s.firstRenderedItemTop)
            && (s.firstRenderedItemTop < 0 && renders ==> r.firstRenderedItemTop == s.compoundedHeight)
            && (!renders ==> r.firstRenderedItemTop == s.firstRenderedItemTop && r.renderedHeights == s.renderedHeights)
  {
  }

  /** The ids of the first `i` items that render in a pass from a fresh
      state, in processing order. */
  function RenderedIds(v: View, bufferSize: int, ids: seq<Id>, heights: seq<int>, i: nat): seq<Id>
    requires |ids| == |heights| && i <= |ids|
  {
    if i == 0 then []
    else RenderedIds(v, bufferSize, ids, heights, i - 1)
         + (if Layout.RendersNth(v, bufferSize, heights, i - 1) then [ids[i - 1]] else [])
  }

  /** The state after a pass over the first `i` items, from a fresh state:
      the total, no correction, and the rendered heights keyed by exactly
      the rendered ids, in order. */
  ghost predicate PassedAs(v: View, bufferSize: int, ids: seq<Id>, heights: seq<int>, i: nat)
    requires |ids| == |heights| && i <= |ids|
  {
    var s := ProcessAll(Initial(), v, bufferSize, ids[..i], heights[..i]);
    && s.Valid()
    && s.compoundedHeight == Sum(heights[..i])
    && s.scrollDelta == 0
    && s.renderedHeights.keys == RenderedIds(v, bufferSize, ids, heights, i)
    && (forall k :: 0 <= k < i ==>
          s.renderedHeights.Get(ids[k]) == if Layout.RendersNth(v, bufferSize, heights, k) then Some(heights[k]) else None)
  }

  /** A pass over distinct ids records exactly the rendered ones, in
      processing order, each with its height, and sums every height into
      `compoundedHeight`. */
  lemma {:induction false} PassRendered(v: View, bufferSize: int, ids: seq<Id>, heights: seq<int>, i: nat)
    requires |ids| == |heights| && Distinct(ids) && i <= |ids|
    ensures PassedAs(v, bufferSize, ids, heights, i)
  {
    if i == 0 {
      assert ids[..0] == [] && heights[..0] == [];
    } else {
      PassRendered(v, bufferSize, ids, heights, i - 1);
      PassStep(v, bufferSize, ids, heights, i - 1);
    }
  }

  lemma PassStep(v: View, bufferSize: int, ids: seq<Id>, heights: seq<int>, n: nat)
    requires |ids| == |heights| && Distinct(ids) && n < |ids|
    requires PassedAs(v, bufferSize, ids, heights, n)
    ensures PassedAs(v, bufferSize, ids, heights, n + 1)
  {
    var i := n + 1;
    assert ids[..i][..n] == ids[..n] && heights[..i][..n] == heights[..n];
    var s := ProcessAll(Initial(), v, bufferSize, ids[..n], heights[..n]);
    assert ProcessAll(Initial(), v, bufferSize, ids[..i], heights[..i]) == ProcessStep(s, v, bufferSize, ids[n], heights[n]);
    assert heights[..i] == heights[..n] + [heights[n]];
    SumAppend(heights[..n], [heights[n]]);
    RenderedIdsFrom(v, bufferSize, ids, heights, n);
    forall k | 0 <= k < n ensures ids[k] != ids[n] {
      DistinctAt(ids, k, n);
    }
    PassStepState(s, v, bufferSize, ids, heights, n);
  }

  /** `PassStep` on the state itself. */
  lemma PassStepState(s: RangesState, v: View, bufferSize: int, ids: seq<Id>, heights: seq<int>, n: nat)
    requires |ids| == |heights| && n < |ids| && s.Valid()
    requires s.renderedHeights.keys == RenderedIds(v, bufferSize, ids, heights, n)
    requires forall k :: 0 <= k < n ==>
               s.renderedHeights.Get(ids[k]) == if Layout.RendersNth(v, bufferSize, heights, k) then Some(heights[k]) else None
    requires forall k :: 0 <= k < n ==> ids[k] != ids[n]
    requires forall x :: x in RenderedIds(v, bufferSize, ids, heights, n) ==> x in ids[..n]
    requires s.compoundedHeight == Sum(heights[..n])
    ensures var r := ProcessStep(s, v, bufferSize, ids[n], heights[n]);
            && r.Valid()
            && r.compoundedHeight == s.compoundedHeight + heights[n]
            && r.scrollDelta == s.scrollDelta
            && r.renderedHeights.keys == RenderedIds(v, bufferSize, ids, heights, n + 1)
            && (forall k :: 0 <= k < n + 1 ==>
                  r.renderedHeights.Get(ids[k]) == if Layout.RendersNth(v, bufferSize, heights, k) then Some(heights[k]) else None)
  {
    ProcessStepFacts(s, v, bufferSize, ids[n], heights[n]);
    if Layout.RendersNth(v, bufferSize, heights, n) {
      assert ids[n] !in s.renderedHeights.keys;
    }
  }

  /** The rendered ids are among the processed ones. */
  lemma {:induction false} RenderedIdsFrom(v: View, bufferSize: int, ids: seq<Id>, heights: seq<int>, i: nat)
    requires |ids| == |heights| && i <= |ids|
    ensures forall x :: x in RenderedIds(v, bufferSize, ids, heights, i) ==> x in ids[..i]
  {
    if i > 0 {
      RenderedIdsFrom(v, bufferSize, ids, heights, i - 1);
      assert ids[..i] == ids[..i - 1] + [ids[i - 1]];
    }
  }

  /** The index of the first of the first `i` items that renders, or `i`
      when none does. */
  function FirstRendered(v: View, bufferSize: int, heights: seq<int>, i: nat): (k: nat)
    requires i <= |heights|
    ensures k <= i
    ensures k < i ==> Layout.RendersNth(v, bufferSize, heights, k)
    ensures forall j :: 0 <= j < k ==> !Layout.RendersNth(v, bufferSize, heights, j)
  {
    if i == 0 then 0
    else
      var k := FirstRendered(v, bufferSize, heights, i - 1);
      if k < i - 1 then k
      else if Layout.RendersNth(v, bufferSize, heights, i - 1) then i - 1
      else i
  }

  /** The top of the first rendered item in a pass from a fresh state.
      `firstRenderedItemTop` is -1 until the first rendered item and is then
      the compounded height before that item, provided no height is
      negative: `addRendered` tests `firstRenderedItemTop < 0`, so a
      negative compounded height would let a later item overwrite it. */
  ghost predicate FirstTopAfter(v: View, bufferSize: int, ids: seq<Id>, heights: seq<int>, i: nat)
    requires |ids| == |heights| && i <= |ids|
  {
    var s := ProcessAll(Initial(), v, bufferSize, ids[..i], heights[..i]);
    var k := FirstRendered(v, bufferSize, heights, i);
    && s.compoundedHeight == Sum(heights[..i])
    && s.firstRenderedItemTop == (if k < i then Sum(heights[..k]) else -1)
  }

  lemma {:induction false} PassFirstTop(v: View, bufferSize: int, ids: seq<Id>, heights: seq<int>, i: nat)
    requires |ids| == |heights| && i <= |ids|
    requires forall k :: 0 <= k < |heights| ==> heights[k] >= 0
    ensures FirstTopAfter(v, bufferSize, ids, heights, i)
  {
    if i == 0 {
      assert ids[..0] == [] && heights[..0] == [];
    } else {
      PassFirstTop(v, bufferSize, ids, heights, i - 1);
      FirstTopStep(v, bufferSize, ids, heights, i - 1);
    }
  }

  lemma FirstTopStep(v: View, bufferSize: int, ids: seq<Id>, heights: seq<int>, n: nat)
    requires |ids| == |heights| && n < |ids|
    requires forall k :: 0 <= k < |heights| ==> heights[k] >= 0
    requires FirstTopAfter(v, bufferSize, ids, heights, n)
    ensures FirstTopAfter(v, bufferSize, ids, heights, n + 1)
  {
    var i := n + 1;
    assert ids[..i][..n] == ids[..n] && heights[..i][..n] == heights[..n];
    var s := ProcessAll(Initial(), v, bufferSize, ids[..n], heights[..n]);
    var r := ProcessAll(Initial(), v, bufferSize, ids[..i], heights[..i]);
    assert r == ProcessStep(s, v, bufferSize, ids[n], heights[n]);
    assert heights[..i] == heights[..n] + [heights[n]];
    SumAppend(heights[..n], [heights[n]]);
    var k := FirstRendered(v, bufferSize, heights, n);
    if k < n {
      SumPrefixMonotone(heights, 0, k);
      assert heights[..0] == [];
    } else {
      SumPrefixMonotone(heights, 0, n);
      assert heights[..0] == [];
    }
  }

  /* ---------------------------------------------------------------------- */
  /* Is a rendered item in the viewport                                      */
  /* ---------------------------------------------------------------------- */

  /** The running top of a rendered item: `firstRenderedItemTop` plus the
      heights rendered before it (no content offset). */
  ghost function ItemTop(s: RangesState, id: Id): int
    requires s.Valid() && id in s.renderedHeights.values
  {
    var keys := s.renderedHeights.keys;
    s.firstRenderedItemTop + Sum(Layout.Heights(keys, s.renderedHeights.values)[..Layout.IndexOf(keys, id)])
  }

  /** `isInViewport(id)`: false for an id that was not rendered; otherwise
      its running interval overlaps the raw viewport. */
  ghost predicate InViewport(s: RangesState, v: View, id: Id)
    requires s.Valid()
  {
    && id in s.renderedHeights.values
    && var top := ItemTop(s, id);
       ShouldRender(top, top + s.renderedHeights.values[id], v.scrollTop, v.scrollTop + v.viewportHeight)
  }

  /** For an item of positive height and a non-empty viewport, the item is
      in the viewport exactly when one of its positions lies in the raw
      viewport, top included, bottom excluded; `scrollDelta` plays no
      part. */
  lemma InViewportSomePosition(s: RangesState, v: View, id: Id)
    requires s.Valid() && id in s.renderedHeights.values && v.viewportHeight > 0
    requires s.renderedHeights.values[id] > 0
    ensures InViewport(s, v, id)
            <==> exists p :: Within(p, ItemTop(s, id), ItemTop(s, id) + s.renderedHeights.values[id])
                             && InRawViewport(v, p)
  {
    var posFrom := ItemTop(s, id);
    var posTo := posFrom + s.renderedHeights.values[id];
    ShouldRenderOverlap(posFrom, posTo, v.scrollTop, v.scrollTop + v.viewportHeight);
    if InViewport(s, v, id) {
      var x :| Within(x, posFrom, posTo) && Within(x, v.scrollTop, v.scrollTop + v.viewportHeight);
      assert InRawViewport(v, x);
    }
    if p :| Within(p, posFrom, posTo) && InRawViewport(v, p) {
      assert Within(p, v.scrollTop, v.scrollTop + v.viewportHeight);
    }
  }

  /** `pos` lies in the viewport as `RangesData` sees it: the raw scroll top
      included, the bottom excluded. */
  predicate InRawViewport(v: View, pos: int) {
    v.scrollTop <= pos < v.scrollTop + v.viewportHeight
  }

  /* ---------------------------------------------------------------------- */
  /* Applying a measurement                                                  */
  /* ---------------------------------------------------------------------- */

  /** How many of the items, from position `i` on, the walk of
      `updateWithMeasurement` passes before it stops: it goes on while the
      running top (`start` plus the heights before) is above `viewTop`. */
  function LeadingAbove(hs: seq<int>, start: int, viewTop: int, i: nat): (n: nat)
    requires i <= |hs|
    ensures i <= n <= |hs|
    ensures forall k :: i <= k < n ==> start + Sum(hs[..k]) < viewTop
    ensures n < |hs| ==> start + Sum(hs[..n]) >= viewTop
    decreases |hs| - i
  {
    if i == |hs| || start + Sum(hs[..i]) >= viewTop then i
    else LeadingAbove(hs, start, viewTop, i + 1)
  }

  /** `updateWithMeasurement`: the deltas of the measured items among those
      the walk passes go into `scrollDelta`; the heights and the total are
      left as they are. */
  ghost function Corrected(s: RangesState, v: View, m: Measurement): (r: RangesState)
    requires s.Valid()
    ensures r.Valid() && r.renderedHeights == s.renderedHeights && r.compoundedHeight == s.compoundedHeight
    ensures r.firstRenderedItemTop == s.firstRenderedItemTop
  {
    var keys := s.renderedHeights.keys;
    var hs := Layout.Heights(keys, s.renderedHeights.values);
    var n := LeadingAbove(hs, s.firstRenderedItemTop, v.scrollTop, 0);
    s.(scrollDelta := s.scrollDelta + Layout.MeasuredSum(keys[..n], m.measuredItemsDelta))
  }

  /** With no negative height the running tops only grow, so stopping at
      the first item that is not above the viewport loses nothing: the
      correction is the sum of the deltas of all measured items whose
      running top is above the viewport, the same filter `LayoutData` uses
      (there with adjusted heights and the corrected top). */
  lemma StopLosesNothing(keys: seq<Id>, hs: seq<int>, deltas: map<Id, int>, start: int, viewTop: int)
    requires |keys| == |hs|
    requires forall k :: 0 <= k < |hs| ==> hs[k] >= 0
    ensures Layout.MeasuredSum(keys[..LeadingAbove(hs, start, viewTop, 0)], deltas)
            == Layout.AboveSum(keys, hs, deltas, start, viewTop)
  {
    var n := LeadingAbove(hs, start, viewTop, 0);
    StopPrefix(keys, hs, deltas, start, viewTop, n, |keys|);
    assert keys[..|keys|] == keys && hs[..|hs|] == hs;
  }

  lemma {:induction false} StopPrefix(keys: seq<Id>, hs: seq<int>, deltas: map<Id, int>, start: int, viewTop: int,
                                      n: nat, i: nat)
    requires |keys| == |hs| && i <= |keys| && n == LeadingAbove(hs, start, viewTop, 0)
    requires forall k :: 0 <= k < |hs| ==> hs[k] >= 0
    ensures Layout.AboveSum(keys[..i], hs[..i], deltas, start, viewTop)
            == Layout.MeasuredSum(keys[..if i < n then i else n], deltas)
  {
    if i > 0 {
      var j := i - 1;
      StopPrefix(keys, hs, deltas, start, viewTop, n, j);
      Layout.UpdateStepFacts(keys, hs, deltas, start, viewTop, j);
      if j < n {
        assert keys[..i][..j] == keys[..j];
      } else {
        SumPrefixMonotone(hs, n, j);
      }
    }
  }

  /** The early stop matters only with negative heights: here the third
      item starts back above the viewport, and its delta is not counted. */
  lemma StopSkipsLaterItems()
    ensures var keys := ["a", "b", "c"];
            var hs := [10, -10, 5];
            var deltas := map["c" := 7];
            && LeadingAbove(hs, 0, 5, 0) == 1
            && Layout.MeasuredSum(keys[..1], deltas) == 0
            && Layout.AboveSum(keys, hs, deltas, 0, 5) == 7
  {
    var keys := ["a", "b", "c"];
    var hs := [10, -10, 5];
    assert hs[..0] == [] && hs[..1] == [10] && hs[..2] == [10, -10];
    assert [10, -10][..1] == [10] && [10][..0] == [];
    assert keys[..1] == ["a"] && keys[..2] == ["a", "b"];
    assert ["a", "b"][..1] == ["a"] && ["a"][..0] == [];
  }

  /* ---------------------------------------------------------------------- */
  /* The class                                                               */
  /* ---------------------------------------------------------------------- */

  /** `RangesData`. The `Scroll` it reads is passed to each method as the
      `View` of the tracker at the time of the call. */
  class RangesData {
    const bufferSize: int
    const defaultItemHeight: int
    var compoundedHeight: int
    var firstRenderedItemTop: int
    var renderedHeights: OMap<Id, int>
    var scrollDelta: int

    function State(): RangesState
      reads this
    {
      RangesState(compoundedHeight, firstRenderedItemTop, renderedHeights, scrollDelta)
    }

    ghost predicate Valid()
      reads this
    {
      State().Valid()
    }

    constructor (bufferSize: int, defaultItemHeight: int)
      ensures Valid() && State() == Initial()
      ensures this.bufferSize == bufferSize && this.defaultItemHeight == defaultItemHeight
    {
      this.bufferSize := bufferSize;
      this.defaultItemHeight := defaultItemHeight;
      compoundedHeight := 0;
      firstRenderedItemTop := -1;
      renderedHeights := EmptyMap();
      scrollDelta := 0;
    }

    /** `shouldProcessedItemRender`. */
    predicate ShouldProcessedItemRender(v: View, curItemHeight: int)
      reads this
    {
      var fromTop := v.scrollTop;
      var posFrom := v.contentOffsetTop + compoundedHeight;
      var posTo := v.contentOffsetTop + compoundedHeight + curItemHeight;
      var viewPortTop := fromTop - bufferSize;
      var viewPortBottom := fromTop + v.viewportHeight + bufferSize;
      posFrom < viewPortBottom && posTo > viewPortTop
    }

    /** `process`. */
    method Process(v: View, id: Id, height: int) returns (rendered: bool)
      requires Valid()
      modifies this
      ensures Valid()
      ensures rendered == Layout.RendersAt(v, bufferSize, old(compoundedHeight), height)
      ensures State() == ProcessStep(old(State()), v, bufferSize, id, height)
    {
      if ShouldProcessedItemRender(v, height) {
        AddRendered(id, height);
        return true;
      } else {
        AddNonRendered(id, height);
        return false;
      }
    }

    /** `isToRender`. */
    predicate IsToRender(id: Id)
      reads this
    {
      renderedHeights.Has(id)
    }

    /** `addNonRendered`. */
    method AddNonRendered(id: Id, height: int)
      modifies this
      ensures State() == WithNonRendered(old(State()), height)
    {
      compoundedHeight := compoundedHeight + height;
    }

    /** `addRendered`. */
    method AddRendered(id: Id, height: int)
      modifies this
      ensures State() == WithRendered(old(State()), id, height)
    {
      if firstRenderedItemTop < 0 {
        firstRenderedItemTop := compoundedHeight;
      }
      compoundedHeight := compoundedHeight + height;
      renderedHeights := renderedHeights.Set(id, height);
    }

    /** `isInViewport`. */
    method IsInViewport(v: View, id: Id) returns (r: bool)
      requires Valid()
      ensures r == InViewport(State(), v, id)
    {
      if !renderedHeights.Has(id) {
        return false;
      }
      var viewPortTop := v.scrollTop;
      var viewPortBottom := viewPortTop + v.viewportHeight;
      var keys := renderedHeights.keys;
      ghost var hs := Layout.Heights(keys, renderedHeights.values);
      var posFrom := firstRenderedItemTop;
      var posTo := firstRenderedItemTop;
      for i := 0 to |keys|
        invariant posFrom == posTo == firstRenderedItemTop + Sum(hs[..i])
        invariant forall j :: 0 <= j < i ==> keys[j] != id
      {
        var curID := keys[i];
        var curHeight := renderedHeights.values[curID];
        posTo := posTo + curHeight;
        if id == curID {
          Layout.IndexOfDistinct(keys, i);
          assert posFrom == ItemTop(State(), id);
          return posFrom < viewPortBottom && posTo > viewPortTop;
        }
        posFrom := posFrom + curHeight;
        assert hs[..i + 1] == hs[..i] + [hs[i]];
        SumAppend(hs[..i], [hs[i]]);
      }
      assert false;
      return false;
    }

    /** `updateWithMeasurement`. */
    method UpdateWithMeasurement(v: View, measure: Measurement)
      requires Valid()
      modifies this
      ensures State() == Corrected(old(State()), v, measure)
    {
      ghost var s := State();
      var viewPortTop := v.scrollTop;
      var keys := renderedHeights.keys;
      ghost var hs := Layout.Heights(keys, renderedHeights.values);
      ghost var n := LeadingAbove(hs, firstRenderedItemTop, viewPortTop, 0);
      var posFrom := firstRenderedItemTop;
      var i := 0;
      while i < |keys|
        invariant i <= n
        invariant posFrom == firstRenderedItemTop + Sum(hs[..i])
        invariant scrollDelta == s.scrollDelta + Layout.MeasuredSum(keys[..i], measure.measuredItemsDelta)
        invariant State() == s.(scrollDelta := scrollDelta)
        decreases |keys| - i
      {
        var curID := keys[i];
        var curHeight := renderedHeights.values[curID];
        if posFrom < viewPortTop {
          assert keys[..i + 1][..i] == keys[..i];
          if curID in measure.measuredItemsDelta {
            scrollDelta := scrollDelta + measure.measuredItemsDelta[curID];
          }
        } else {
          break;
        }
        posFrom := posFrom + curHeight;
        assert hs[..i + 1] == hs[..i] + [hs[i]];
        SumAppend(hs[..i], [hs[i]]);
        i := i + 1;
      }
      assert i == n;
    }
  }
}
