/** The layout calculator `LayoutData` (src/layout.ts): one forward pass
    over the models decides which items overlap the buffered viewport and
    accumulates the compounded height, the first and last rendered item and
    the heights of the rendered items; a measurement then corrects those
    heights and derives the scroll correction `scrollDelta`. */
module Layout {
  import opened Common
  import opened Scroll
  import opened Measure

  /** `RenderedItem`: the top of an item relative to the items container,
      its position among the models and its id. */
  datatype RenderedItem = RenderedItem(top: int, index: int, id: Id)

  /** The fields of a `LayoutData` that its methods update. */
  datatype LayoutState = LayoutState(
    compoundedHeight: int,
    renderedHeights: OMap<Id, int>,
    firstRenderedItem: Option<RenderedItem>,
    lastRenderedItem: Option<RenderedItem>,
    scrollDelta: int,
    curIndex: int)
  {
    /** The rendered heights form a proper map, and there is a first and a
        last rendered item exactly when some item was rendered. */
    ghost predicate Valid() {
      && renderedHeights.Valid()
      && (firstRenderedItem.Some? <==> renderedHeights.Size() > 0)
      && (lastRenderedItem.Some? <==> renderedHeights.Size() > 0)
    }

    /** The `scrollTop` getter: the tracked scroll top corrected by
        `scrollDelta`. */
    function ScrollTop(v: View): int {
      v.scrollTop + scrollDelta
    }

    /** `isAboveViewport`. */
    predicate IsAboveViewport(v: View, pos: int) {
      pos < ScrollTop(v)
    }

    /** `isInViewport`: `pos` lies in the corrected viewport, top included,
        bottom excluded. */
    predicate IsInViewport(v: View, pos: int) {
      ScrollTop(v) <= pos < ScrollTop(v) + v.viewportHeight
    }
  }

  /** A fresh `LayoutData`. */
  function Initial(): (s: LayoutState)
    ensures s.Valid()
  {
    LayoutState(0, EmptyMap(), None, None, 0, 0)
  }

  /* ---------------------------------------------------------------------- */
  /* The forward pass                                                        */
  /* ---------------------------------------------------------------------- */

  /** `shouldProcessedItemRender` for an item whose top (relative to the
      items container) is `top`: its interval, shifted by the content
      offset, overlaps the viewport widened by `bufferSize` on both sides.
      The raw scroll top is used, without `scrollDelta`. */
  predicate RendersAt(v: View, bufferSize: int, top: int, height: int) {
    ShouldRender(v.contentOffsetTop + top, v.contentOffsetTop + top + height,
                 v.scrollTop - bufferSize, v.scrollTop + v.viewportHeight + bufferSize)
  }

  /** Whether the `k`-th of a run of items with these heights renders in a
      pass from a fresh layout. */
  predicate RendersNth(v: View, bufferSize: int, heights: seq<int>, k: nat)
    requires k < |heights|
  {
    RendersAt(v, bufferSize, Sum(heights[..k]), heights[k])
  }

  /** `addRendered`. */
  function WithRendered(s: LayoutState, id: Id, height: int): (r: LayoutState)
    ensures s.Valid() ==> r.Valid()
  {
    var item := RenderedItem(s.compoundedHeight, s.curIndex, id);
    s.(firstRenderedItem := if s.firstRenderedItem.None? then Some(item) else s.firstRenderedItem,
       lastRenderedItem := Some(item),
       compoundedHeight := s.compoundedHeight + height,
       renderedHeights := s.renderedHeights.Set(id, height),
       curIndex := s.curIndex + 1)
  }

  /** `addNonRendered`. */
  function WithNonRendered(s: LayoutState, height: int): LayoutState {
    s.(compoundedHeight := s.compoundedHeight + height, curIndex := s.curIndex + 1)
  }

  /** `process`. */
  function ProcessStep(s: LayoutState, v: View, bufferSize: int, id: Id, height: int): LayoutState {
    if RendersAt(v, bufferSize, s.compoundedHeight, height) then WithRendered(s, id, height)
    else WithNonRendered(s, height)
  }

  /** `process` called for each id in order. */
  function ProcessAll(s: LayoutState, v: View, bufferSize: int, ids: seq<Id>, heights: seq<int>): LayoutState
    requires |ids| == |heights|
  {
    if ids == [] then s
    else
      var n := |ids| - 1;
      ProcessStep(ProcessAll(s, v, bufferSize, ids[..n], heights[..n]), v, bufferSize, ids[n], heights[n])
  }

  /** Every processed item adds its height to `compoundedHeight` and one to
      `curIndex`, rendered or not, whatever the buffer; the scroll
      correction is untouched and the state stays valid. */
  lemma {:induction false} ProcessAllTotals(s: LayoutState, v: View, bufferSize: int, ids: seq<Id>, heights: seq<int>)
    requires |ids| == |heights| && s.Valid()
    ensures var r := ProcessAll(s, v, bufferSize, ids, heights);
            && r.compoundedHeight == s.compoundedHeight + Sum(heights)
            && r.curIndex == s.curIndex + |ids|
            && r.scrollDelta == s.scrollDelta
            && r.Valid()
  {
    if ids != [] {
      var n := |ids| - 1;
      ProcessAllTotals(s, v, bufferSize, ids[..n], heights[..n]);
    }
  }

  /** With no negative height, the rendered items of a pass are consecutive:
      an item between two rendered ones is rendered too. */
  lemma RenderedContiguous(v: View, bufferSize: int, heights: seq<int>, a: nat, b: nat, c: nat)
    requires a < b < c < |heights|
    requires forall k :: 0 <= k < |heights| ==> heights[k] >= 0
    requires RendersAt(v, bufferSize, Sum(heights[..a]), heights[a])
    requires RendersAt(v, bufferSize, Sum(heights[..c]), heights[c])
    ensures RendersAt(v, bufferSize, Sum(heights[..b]), heights[b])
  {
    SumPrefixMonotone(heights, b, c);
    SumPrefixMonotone(heights, a + 1, b + 1);
    assert heights[..a + 1] == heights[..a] + [heights[a]];
    assert heights[..b + 1] == heights[..b] + [heights[b]];
    SumAppend(heights[..a], [heights[a]]);
    SumAppend(heights[..b], [heights[b]]);
  }

  /** A pass from a fresh layout over distinct ids whose rendered items are
      the positions `lo` to `hi - 1`: after the first `i` items, the first
      rendered item is `lo`, the last is the last rendered one so far, each
      with the compounded height before it as `top` and its position as
      `index`, and the rendered heights are those items' heights in order. */
  lemma {:induction false} ProcessWindow(v: View, bufferSize: int, ids: seq<Id>, heights: seq<int>, lo: nat, hi: nat, i: nat)
    requires |ids| == |heights| && Distinct(ids) && lo <= hi <= |ids| && i <= |ids|
    requires forall k :: 0 <= k < |ids| ==> (RendersNth(v, bufferSize, heights, k) <==> lo <= k < hi)
    ensures WindowAfter(v, bufferSize, ids, heights, lo, hi, i)
  {
    if i > 0 {
      ProcessWindow(v, bufferSize, ids, heights, lo, hi, i - 1);
      WindowStep(v, bufferSize, ids, heights, lo, hi, i - 1);
    } else {
      assert ids[..0] == [] && heights[..0] == [];
      assert WindowAt(Initial(), ids, heights, lo, 0);
    }
  }

  /** The rendered part after a pass over the first `i` items. */
  ghost predicate WindowAfter(v: View, bufferSize: int, ids: seq<Id>, heights: seq<int>, lo: nat, hi: nat, i: nat)
    requires |ids| == |heights| && hi <= |ids| && i <= |ids|
  {
    WindowAt(ProcessAll(Initial(), v, bufferSize, ids[..i], heights[..i]), ids, heights, lo, if i < hi then i else hi)
  }

  lemma WindowStep(v: View, bufferSize: int, ids: seq<Id>, heights: seq<int>, lo: nat, hi: nat, n: nat)
    requires |ids| == |heights| && Distinct(ids) && lo <= hi <= |ids| && n < |ids|
    requires RendersNth(v, bufferSize, heights, n) <==> lo <= n < hi
    requires WindowAfter(v, bufferSize, ids, heights, lo, hi, n)
    ensures WindowAfter(v, bufferSize, ids, heights, lo, hi, n + 1)
  {
    var i := n + 1;
    assert ids[..i][..n] == ids[..n] && heights[..i][..n] == heights[..n];
    var s := ProcessAll(Initial(), v, bufferSize, ids[..n], heights[..n]);
    ProcessAllTotals(Initial(), v, bufferSize, ids[..n], heights[..n]);
    var r := ProcessAll(Initial(), v, bufferSize, ids[..i], heights[..i]);
    if lo <= n < hi {
      assert r == WithRendered(s, ids[n], heights[n]);
      WindowFresh(s, ids, heights, lo, n);
      WindowGrows(s, ids, heights, lo, n);
    } else {
      assert r == WithNonRendered(s, heights[n]);
      assert r.renderedHeights == s.renderedHeights;
      assert r.firstRenderedItem == s.firstRenderedItem && r.lastRenderedItem == s.lastRenderedItem;
    }
  }

  /** The rendered part of a layout is the items `lo` to `j - 1`. */
  ghost predicate WindowAt(s: LayoutState, ids: seq<Id>, heights: seq<int>, lo: nat, j: nat)
    requires |ids| == |heights| && j <= |ids|
  {
    && s.renderedHeights.keys == (if lo < j then ids[lo..j] else [])
    && (forall k :: lo <= k < j ==> s.renderedHeights.Get(ids[k]) == Some(heights[k]))
    && s.firstRenderedItem == (if lo < j then Some(RenderedItem(Sum(heights[..lo]), lo, ids[lo])) else None)
    && s.lastRenderedItem == (if lo < j then Some(RenderedItem(Sum(heights[..j - 1]), j - 1, ids[j - 1])) else None)
  }

  lemma WindowGrows(s: LayoutState, ids: seq<Id>, heights: seq<int>, lo: nat, n: nat)
    requires |ids| == |heights| && lo <= n < |ids| && ids[n] !in s.renderedHeights.values
    requires WindowAt(s, ids, heights, lo, n)
    requires s.compoundedHeight == Sum(heights[..n]) && s.curIndex == n
    ensures WindowAt(WithRendered(s, ids[n], heights[n]), ids, heights, lo, n + 1)
  {
    var id := ids[n];
    var r := WithRendered(s, id, heights[n]);
    assert r.renderedHeights.keys == ids[lo..n + 1] by {
      assert r.renderedHeights.keys == s.renderedHeights.keys + [id];
      if lo < n {
        assert ids[lo..n] + [id] == ids[lo..n + 1];
      } else {
        assert ids[lo..n + 1] == [id];
      }
    }
    assert r.renderedHeights.values == s.renderedHeights.values[id := heights[n]];
    forall k | lo <= k < n + 1 ensures r.renderedHeights.Get(ids[k]) == Some(heights[k]) {
      if k < n {
        assert s.renderedHeights.Get(ids[k]) == Some(heights[k]);
      }
    }
    assert r.firstRenderedItem == Some(RenderedItem(Sum(heights[..lo]), lo, ids[lo])) by {
      if lo == n {
        assert s.firstRenderedItem.None?;
      }
    }
    assert r.lastRenderedItem == Some(RenderedItem(Sum(heights[..n]), n, ids[n]));
  }

  /** Distinct ids: the next id is not yet among the rendered ones. */
  lemma WindowFresh(s: LayoutState, ids: seq<Id>, heights: seq<int>, lo: nat, n: nat)
    requires |ids| == |heights| && Distinct(ids) && lo <= n < |ids| && s.Valid()
    requires WindowAt(s, ids, heights, lo, n)
    ensures ids[n] !in s.renderedHeights.values
  {
    if lo < n {
      forall k | lo <= k < n ensures ids[k] != ids[n] {
        DistinctAt(ids, k, n);
      }
      assert ids[n] !in ids[lo..n];
    }
  }

  /* ---------------------------------------------------------------------- */
  /* Applying a measurement                                                  */
  /* ---------------------------------------------------------------------- */

  /** The values of `keys` in `values`, in key order. */
  function Heights(keys: seq<Id>, values: map<Id, int>): (r: seq<int>)
    requires forall id :: id in keys ==> id in values
    ensures |r| == |keys|
    ensures forall i :: 0 <= i < |keys| ==> r[i] == values[keys[i]]
  {
    seq(|keys|, i requires 0 <= i < |keys| => values[keys[i]])
  }

  /** Every measured height moved by its delta. */
  function Adjusted(values: map<Id, int>, deltas: map<Id, int>): (r: map<Id, int>)
    ensures r.Keys == values.Keys
    ensures forall id :: id in values ==> r[id] == values[id] + (if id in deltas then deltas[id] else 0)
  {
    map id | id in values :: values[id] + (if id in deltas then deltas[id] else 0)
  }

  /** The position of `id` in `keys`, or `|keys|` when absent. */
  function IndexOf(keys: seq<Id>, id: Id): (k: nat)
    ensures k <= |keys|
    ensures k < |keys| ==> keys[k] == id
    ensures k == |keys| <==> id !in keys
    ensures forall j :: 0 <= j < k ==> keys[j] != id
  {
    if keys == [] then 0
    else if keys[0] == id then 0
    else 1 + IndexOf(keys[1..], id)
  }

  /** The scroll correction of a walk over `keys` with adjusted heights
      `hs`, starting at `start`: the sum of the deltas of the measured items
      whose running top lies strictly above `viewTop`. */
  function AboveSum(keys: seq<Id>, hs: seq<int>, deltas: map<Id, int>, start: int, viewTop: int): int
    requires |keys| == |hs|
  {
    if keys == [] then 0
    else
      var n := |keys| - 1;
      AboveSum(keys[..n], hs[..n], deltas, start, viewTop)
        + (if keys[n] in deltas && start + Sum(hs[..n]) < viewTop then deltas[keys[n]] else 0)
  }

  /** `updateWithMeasurement`: walks the rendered items from the top of the
      first one (plus the content offset), moving each measured height by
      its delta and adding the delta to `scrollDelta` when the item starts
      above the viewport top read before the walk; the last rendered item's
      `top` becomes its running position; the total grows by the aggregate
      delta. The source dereferences `firstRenderedItem`, so some item must
      have been rendered. */
  function Updated(s: LayoutState, v: View, m: Measurement): LayoutState
    requires s.Valid() && s.firstRenderedItem.Some?
  {
    var w := Walking(s.renderedHeights, m.measuredItemsDelta, v.contentOffsetTop + s.firstRenderedItem.value.top,
                     v.scrollTop + s.scrollDelta, s.lastRenderedItem.value, |s.renderedHeights.keys|);
    s.(renderedHeights := w.heights,
       scrollDelta := s.scrollDelta + w.correction,
       lastRenderedItem := Some(w.lastItem),
       compoundedHeight := s.compoundedHeight + m.compoundMeasuredHeightDelta)
  }

  /** The outcome of the walk over `rendered` from `start`: every measured
      height moved by its delta, the correction of the items above
      `viewPortTop`, `last` moved to its running position when it is among
      the rendered ids, and the position past the last item. */
  function Walked(rendered: OMap<Id, int>, deltas: map<Id, int>, start: int, viewPortTop: int, last: RenderedItem): Walker
    requires rendered.Valid()
  {
    var keys := rendered.keys;
    var adj := Adjusted(rendered.values, deltas);
    var hs := Heights(keys, adj);
    var li := IndexOf(keys, last.id);
    Walker(OMap(keys, adj),
           AboveSum(keys, hs, deltas, start, viewPortTop),
           if li < |keys| then last.(top := start + Sum(hs[..li])) else last,
           start + Sum(hs))
  }

  /** A measurement keeps the rendered ids, their order and the first
      rendered item, moves each measured rendered height by its delta and
      leaves the others alone. */
  lemma UpdatedHeights(s: LayoutState, v: View, m: Measurement)
    requires s.Valid() && s.firstRenderedItem.Some?
    ensures var r := Updated(s, v, m);
            && r.Valid()
            && r.renderedHeights.keys == s.renderedHeights.keys
            && r.firstRenderedItem == s.firstRenderedItem && r.curIndex == s.curIndex
            && (forall id :: id in s.renderedHeights.values && id in m.measuredItemsDelta ==>
                  r.renderedHeights.Get(id) == Some(s.renderedHeights.values[id] + m.measuredItemsDelta[id]))
            && (forall id :: id !in m.measuredItemsDelta ==> r.renderedHeights.Get(id) == s.renderedHeights.Get(id))
            && r.compoundedHeight == s.compoundedHeight + m.compoundMeasuredHeightDelta
  {
    WalkingWalked(s.renderedHeights, m.measuredItemsDelta, v.contentOffsetTop + s.firstRenderedItem.value.top,
                  v.scrollTop + s.scrollDelta, s.lastRenderedItem.value);
  }

  /** The sum of the deltas of the measured keys. */
  function MeasuredSum(keys: seq<Id>, deltas: map<Id, int>): int {
    if keys == [] then 0
    else
      var n := |keys| - 1;
      MeasuredSum(keys[..n], deltas) + (if keys[n] in deltas then deltas[keys[n]] else 0)
  }

  /** With no negative height, a walk starting at or below the viewport top
      corrects nothing: changes at or below the fold only grow the total. */
  lemma {:induction false} NothingAboveNoCorrection(keys: seq<Id>, hs: seq<int>, deltas: map<Id, int>, start: int, viewTop: int)
    requires |keys| == |hs| && start >= viewTop
    requires forall k :: 0 <= k < |hs| ==> hs[k] >= 0
    ensures AboveSum(keys, hs, deltas, start, viewTop) == 0
  {
    if keys != [] {
      var n := |keys| - 1;
      assert forall k :: 0 <= k < n ==> hs[..n][k] >= 0;
      NothingAboveNoCorrection(keys[..n], hs[..n], deltas, start, viewTop);
      SumPrefixMonotone(hs, 0, n);
    }
  }

  /** With no negative height, when even the last item starts above the
      viewport top, every measured delta goes into the correction. */
  lemma {:induction false} AllAboveFullCorrection(keys: seq<Id>, hs: seq<int>, deltas: map<Id, int>, start: int, viewTop: int)
    requires |keys| == |hs| && keys != [] && start + Sum(hs[..|hs| - 1]) < viewTop
    requires forall k :: 0 <= k < |hs| ==> hs[k] >= 0
    ensures AboveSum(keys, hs, deltas, start, viewTop) == MeasuredSum(keys, deltas)
  {
    var n := |keys| - 1;
    if n > 0 {
      assert forall k :: 0 <= k < n ==> hs[..n][k] >= 0;
      SumPrefixMonotone(hs, n - 1, n);
      assert hs[..n][..n - 1] == hs[..n - 1];
      AllAboveFullCorrection(keys[..n], hs[..n], deltas, start, viewTop);
    }
  }

  /** When the only measured key is `keys[j]`, the correction is its delta
      exactly when it starts above the viewport top. */
  lemma {:induction false} SingleMeasuredCorrection(keys: seq<Id>, hs: seq<int>, deltas: map<Id, int>, start: int, viewTop: int, j: nat, i: nat)
    requires |keys| == |hs| && j < |keys| && i <= |keys|
    requires forall k :: 0 <= k < |keys| && k != j ==> keys[k] !in deltas
    requires keys[j] in deltas
    ensures AboveSum(keys[..i], hs[..i], deltas, start, viewTop)
            == if j < i && start + Sum(hs[..j]) < viewTop then deltas[keys[j]] else 0
  {
    if i > 0 {
      var n := i - 1;
      assert keys[..i][..n] == keys[..n] && hs[..i][..n] == hs[..n];
      SingleMeasuredCorrection(keys, hs, deltas, start, viewTop, j, n);
    }
  }

  /** With distinct keys, a key is found at its own position. */
  lemma IndexOfDistinct(keys: seq<Id>, i: nat)
    requires Distinct(keys) && i < |keys|
    ensures IndexOf(keys, keys[i]) == i
  {
    var k := IndexOf(keys, keys[i]);
    if k < i {
      DistinctAt(keys, k, i);
    }
  }

  /* ---------------------------------------------------------------------- */
  /* Is a rendered item in the viewport                                      */
  /* ---------------------------------------------------------------------- */

  /** The running top of a rendered item: the top of the first rendered
      item plus the content offset plus the heights rendered before it. */
  ghost function ItemTop(s: LayoutState, v: View, id: Id): int
    requires s.Valid() && id in s.renderedHeights.values
  {
    var keys := s.renderedHeights.keys;
    v.contentOffsetTop + s.firstRenderedItem.value.top
      + Sum(Heights(keys, s.renderedHeights.values)[..IndexOf(keys, id)])
  }

  /** `isItemInViewport(id)`: false for an id that was not rendered;
      otherwise its running interval overlaps the corrected viewport. */
  ghost predicate ItemInViewport(s: LayoutState, v: View, id: Id)
    requires s.Valid()
  {
    && id in s.renderedHeights.values
    && var top := ItemTop(s, v, id);
       ShouldRender(top, top + s.renderedHeights.values[id], s.ScrollTop(v), s.ScrollTop(v) + v.viewportHeight)
  }

  /** For an item of positive height and a non-empty viewport, the item is
      in the viewport exactly when one of its positions is. */
  lemma ItemInViewportSomePosition(s: LayoutState, v: View, id: Id)
    requires s.Valid() && id in s.renderedHeights.values && v.viewportHeight > 0
    requires s.renderedHeights.values[id] > 0
    ensures ItemInViewport(s, v, id)
            <==> exists p :: Within(p, ItemTop(s, v, id), ItemTop(s, v, id) + s.renderedHeights.values[id])
                             && s.IsInViewport(v, p)
  {
    var posFrom := ItemTop(s, v, id);
    var posTo := posFrom + s.renderedHeights.values[id];
    var top := s.ScrollTop(v);
    ShouldRenderOverlap(posFrom, posTo, top, top + v.viewportHeight);
    if ItemInViewport(s, v, id) {
      var x :| Within(x, posFrom, posTo) && Within(x, top, top + v.viewportHeight);
      assert s.IsInViewport(v, x);
    }
    if p :| Within(p, posFrom, posTo) && s.IsInViewport(v, p) {
      assert Within(p, top, top + v.viewportHeight);
    }
  }

  /** One step of the walk, unfolded. */
  lemma UpdateStepFacts(keys: seq<Id>, hs: seq<int>, deltas: map<Id, int>, start: int, viewTop: int, i: nat)
    requires |keys| == |hs| && i < |keys|
    ensures Sum(hs[..i + 1]) == Sum(hs[..i]) + hs[i]
    ensures AboveSum(keys[..i + 1], hs[..i + 1], deltas, start, viewTop)
            == AboveSum(keys[..i], hs[..i], deltas, start, viewTop)
               + (if keys[i] in deltas && start + Sum(hs[..i]) < viewTop then deltas[keys[i]] else 0)
  {
    assert keys[..i + 1][..i] == keys[..i] && hs[..i + 1][..i] == hs[..i];
  }

  /** The heights once the walk has passed `id`: moved by its delta when
      it was measured. */
  function VisitedHeights(values: map<Id, int>, deltas: map<Id, int>, id: Id): map<Id, int> {
    if id in deltas && id in values then values[id := values[id] + deltas[id]] else values
  }

  /** The heights after the walk has passed the first `i` keys. */
  ghost function PartlyAdjusted(values: map<Id, int>, deltas: map<Id, int>, keys: seq<Id>, i: nat): (r: map<Id, int>)
    requires i <= |keys|
    ensures r.Keys == values.Keys
  {
    if i == 0 then values
    else VisitedHeights(PartlyAdjusted(values, deltas, keys, i - 1), deltas, keys[i - 1])
  }

  /** The height of one id after the walk has passed the first `i` keys. */
  lemma {:induction false} PartlyAdjustedAt(values: map<Id, int>, deltas: map<Id, int>, keys: seq<Id>, i: nat, id: Id)
    requires i <= |keys| && Distinct(keys) && id in values
    ensures PartlyAdjusted(values, deltas, keys, i)[id]
            == values[id] + (if id in deltas && id in keys[..i] then deltas[id] else 0)
  {
    if i > 0 {
      PartlyAdjustedAt(values, deltas, keys, i - 1, id);
      assert keys[..i] == keys[..i - 1] + [keys[i - 1]];
      if id == keys[i - 1] {
        assert id !in keys[..i - 1] by {
          forall j | 0 <= j < i - 1 ensures keys[j] != keys[i - 1] {
            DistinctAt(keys, j, i - 1);
          }
        }
      }
    }
  }

  /** Past every key, the walk has adjusted every measured height. */
  lemma PartlyAdjustedAll(values: map<Id, int>, deltas: map<Id, int>, keys: seq<Id>)
    requires Distinct(keys) && forall id :: id in values ==> id in keys
    ensures PartlyAdjusted(values, deltas, keys, |keys|) == Adjusted(values, deltas)
  {
    assert keys[..|keys|] == keys;
    forall id | id in values
      ensures PartlyAdjusted(values, deltas, keys, |keys|)[id] == Adjusted(values, deltas)[id]
    {
      PartlyAdjustedAt(values, deltas, keys, |keys|, id);
    }
  }

  /** The variables of the walk of `updateWithMeasurement`: the rendered
      heights, the scroll correction, the last rendered item and the running
      position. */
  datatype Walker = Walker(heights: OMap<Id, int>, correction: int, lastItem: RenderedItem, posFrom: int)

  /** One item of the walk: a measured item's height moves by its delta,
      and so does the correction when the item starts above the viewport
      top; the last rendered item takes the running position; the position
      then moves past the (adjusted) item. */
  function Visited(w: Walker, deltas: map<Id, int>, viewPortTop: int, curID: Id): Walker {
    var d := if curID in deltas then deltas[curID] else 0;
    Walker(OMap(w.heights.keys, VisitedHeights(w.heights.values, deltas, curID)),
           w.correction + (if curID in deltas && w.posFrom < viewPortTop then d else 0),
           if curID == w.lastItem.id then w.lastItem.(top := w.posFrom) else w.lastItem,
           w.posFrom + (if curID in w.heights.values then w.heights.values[curID] else 0) + d)
  }

  /** The body of the loop of `updateWithMeasurement`, on its variables. */
  method Visit(deltas: map<Id, int>, viewPortTop: int, curID: Id,
               heights: OMap<Id, int>, correction: int, lastItem: RenderedItem, posFrom: int)
    returns (heights': OMap<Id, int>, correction': int, lastItem': RenderedItem, posFrom': int)
    requires curID in heights.values
    ensures Walker(heights', correction', lastItem', posFrom')
            == Visited(Walker(heights, correction, lastItem, posFrom), deltas, viewPortTop, curID)
  {
    heights', correction', lastItem' := heights, correction, lastItem;
    var curHeight := heights.values[curID];
    var ajustedHeight := curHeight;
    if curID in deltas {
      var delta := deltas[curID];
      if posFrom < viewPortTop {
        correction' := correction' + delta;
      }
      ajustedHeight := ajustedHeight + delta;
      heights' := OMap(heights'.keys, heights'.values[curID := ajustedHeight]);
    }
    if curID == lastItem'.id {
      lastItem' := lastItem'.(top := posFrom);
    }
    posFrom' := posFrom + ajustedHeight;
  }

  /** The state of the walk after its first `i` items, given the adjusted
      heights `hs`, the position `li` of the last rendered item and that
      item `moved` to its new top. */
  ghost function WalkState(rendered: OMap<Id, int>, deltas: map<Id, int>, hs: seq<int>, start: int, viewPortTop: int,
                           last: RenderedItem, li: nat, moved: RenderedItem, i: nat): Walker
    requires |hs| == |rendered.keys| && i <= |rendered.keys|
  {
    var keys := rendered.keys;
    Walker(OMap(keys, PartlyAdjusted(rendered.values, deltas, keys, i)),
           AboveSum(keys[..i], hs[..i], deltas, start, viewPortTop),
           if li < i then moved else last,
           start + Sum(hs[..i]))
  }

  /** What `WalkState` assumes of its `hs`, `li` and `moved`. */
  ghost predicate WalkGiven(rendered: OMap<Id, int>, deltas: map<Id, int>, hs: seq<int>, start: int,
                            last: RenderedItem, li: nat, moved: RenderedItem)
  {
    && rendered.Valid()
    && hs == Heights(rendered.keys, Adjusted(rendered.values, deltas))
    && li == IndexOf(rendered.keys, last.id)
    && (li < |rendered.keys| ==> moved == last.(top := start + Sum(hs[..li])))
  }

  /** One item of the walk moves its state to the next. */
  lemma WalkStep(rendered: OMap<Id, int>, deltas: map<Id, int>, hs: seq<int>, start: int, viewPortTop: int,
                 last: RenderedItem, li: nat, moved: RenderedItem, i: nat)
    requires WalkGiven(rendered, deltas, hs, start, last, li, moved) && i < |rendered.keys|
    ensures rendered.keys[i] in WalkState(rendered, deltas, hs, start, viewPortTop, last, li, moved, i).heights.values
    ensures Visited(WalkState(rendered, deltas, hs, start, viewPortTop, last, li, moved, i), deltas, viewPortTop, rendered.keys[i])
            == WalkState(rendered, deltas, hs, start, viewPortTop, last, li, moved, i + 1)
  {
    var w := WalkState(rendered, deltas, hs, start, viewPortTop, last, li, moved, i);
    var w' := Visited(w, deltas, viewPortTop, rendered.keys[i]);
    var w1 := WalkState(rendered, deltas, hs, start, viewPortTop, last, li, moved, i + 1);
    WalkStepHeights(rendered, deltas, hs, start, viewPortTop, last, li, moved, i);
    WalkStepPosition(rendered, deltas, hs, start, viewPortTop, last, li, moved, i);
    WalkStepCorrection(rendered, deltas, hs, start, viewPortTop, last, li, moved, i);
    WalkStepLast(rendered, deltas, hs, start, viewPortTop, last, li, moved, i);
    assert w' == Walker(w1.heights, w1.correction, w1.lastItem, w1.posFrom);
  }

  /** `WalkStep` on the heights: the item's height moves by its delta. */
  lemma WalkStepHeights(rendered: OMap<Id, int>, deltas: map<Id, int>, hs: seq<int>, start: int, viewPortTop: int,
                        last: RenderedItem, li: nat, moved: RenderedItem, i: nat)
    requires WalkGiven(rendered, deltas, hs, start, last, li, moved) && i < |rendered.keys|
    ensures rendered.keys[i] in WalkState(rendered, deltas, hs, start, viewPortTop, last, li, moved, i).heights.values
    ensures Visited(WalkState(rendered, deltas, hs, start, viewPortTop, last, li, moved, i), deltas, viewPortTop, rendered.keys[i]).heights
            == WalkState(rendered, deltas, hs, start, viewPortTop, last, li, moved, i + 1).heights
  {
  }

  /** `WalkStep` on the running position: it moves past the adjusted item. */
  lemma WalkStepPosition(rendered: OMap<Id, int>, deltas: map<Id, int>, hs: seq<int>, start: int, viewPortTop: int,
                         last: RenderedItem, li: nat, moved: RenderedItem, i: nat)
    requires WalkGiven(rendered, deltas, hs, start, last, li, moved) && i < |rendered.keys|
    ensures rendered.keys[i] in WalkState(rendered, deltas, hs, start, viewPortTop, last, li, moved, i).heights.values
    ensures Visited(WalkState(rendered, deltas, hs, start, viewPortTop, last, li, moved, i), deltas, viewPortTop, rendered.keys[i]).posFrom
            == WalkState(rendered, deltas, hs, start, viewPortTop, last, li, moved, i + 1).posFrom
  {
    var keys := rendered.keys;
    var curID := keys[i];
    var w := WalkState(rendered, deltas, hs, start, viewPortTop, last, li, moved, i);
    var d := if curID in deltas then deltas[curID] else 0;
    assert hs[i] == w.heights.values[curID] + d by {
      PartlyAdjustedAt(rendered.values, deltas, keys, i, curID);
      assert curID !in keys[..i] by {
        forall j | 0 <= j < i ensures keys[j] != curID {
          DistinctAt(keys, j, i);
        }
      }
    }
    assert Sum(hs[..i + 1]) == Sum(hs[..i]) + hs[i] by {
      UpdateStepFacts(keys, hs, deltas, start, viewPortTop, i);
    }
  }

  /** `WalkStep` on the correction: it takes the delta of a measured item
      starting above the viewport top. */
  lemma WalkStepCorrection(rendered: OMap<Id, int>, deltas: map<Id, int>, hs: seq<int>, start: int, viewPortTop: int,
                           last: RenderedItem, li: nat, moved: RenderedItem, i: nat)
    requires WalkGiven(rendered, deltas, hs, start, last, li, moved) && i < |rendered.keys|
    ensures rendered.keys[i] in WalkState(rendered, deltas, hs, start, viewPortTop, last, li, moved, i).heights.values
    ensures Visited(WalkState(rendered, deltas, hs, start, viewPortTop, last, li, moved, i), deltas, viewPortTop, rendered.keys[i]).correction
            == WalkState(rendered, deltas, hs, start, viewPortTop, last, li, moved, i + 1).correction
  {
    UpdateStepFacts(rendered.keys, hs, deltas, start, viewPortTop, i);
  }

  /** `WalkStep` on the last rendered item: it moves when the walk reaches it. */
  lemma WalkStepLast(rendered: OMap<Id, int>, deltas: map<Id, int>, hs: seq<int>, start: int, viewPortTop: int,
                     last: RenderedItem, li: nat, moved: RenderedItem, i: nat)
    requires WalkGiven(rendered, deltas, hs, start, last, li, moved) && i < |rendered.keys|
    ensures rendered.keys[i] in WalkState(rendered, deltas, hs, start, viewPortTop, last, li, moved, i).heights.values
    ensures Visited(WalkState(rendered, deltas, hs, start, viewPortTop, last, li, moved, i), deltas, viewPortTop, rendered.keys[i]).lastItem
            == WalkState(rendered, deltas, hs, start, viewPortTop, last, li, moved, i + 1).lastItem
  {
    var keys := rendered.keys;
    if keys[i] == last.id {
      IndexOfDistinct(keys, i);
      assert li == i;
    } else {
      assert li != i;
    }
  }

  /** Before any item, the walk holds the rendered heights unchanged, no
      correction, the last rendered item as it was and the start position. */
  lemma WalkInit(rendered: OMap<Id, int>, deltas: map<Id, int>, hs: seq<int>, start: int, viewPortTop: int,
                 last: RenderedItem, li: nat, moved: RenderedItem)
    requires WalkGiven(rendered, deltas, hs, start, last, li, moved)
    ensures WalkState(rendered, deltas, hs, start, viewPortTop, last, li, moved, 0) == Walker(rendered, 0, last, start)
  {
    assert rendered.keys[..0] == [] && hs[..0] == [];
  }

  /** After every item, the walk has produced the adjusted heights, the
      whole correction and the moved last item. */
  lemma WalkDone(rendered: OMap<Id, int>, deltas: map<Id, int>, hs: seq<int>, start: int, viewPortTop: int,
                 last: RenderedItem, li: nat, moved: RenderedItem)
    requires WalkGiven(rendered, deltas, hs, start, last, li, moved)
    ensures var w := WalkState(rendered, deltas, hs, start, viewPortTop, last, li, moved, |rendered.keys|);
            var r := Walked(rendered, deltas, start, viewPortTop, last);
            w.heights == r.heights && w.correction == r.correction && w.lastItem == r.lastItem
  {
    var keys := rendered.keys;
    assert keys[..|keys|] == keys && hs[..|keys|] == hs;
    PartlyAdjustedAll(rendered.values, deltas, keys);
  }

  /** The adjusted heights, the position of the last rendered item and
      that item moved, as the walk expects them. */
  lemma WalkStart(rendered: OMap<Id, int>, deltas: map<Id, int>, start: int, last: RenderedItem)
    returns (hs: seq<int>, li: nat, moved: RenderedItem)
    requires rendered.Valid()
    ensures WalkGiven(rendered, deltas, hs, start, last, li, moved)
  {
    hs := Heights(rendered.keys, Adjusted(rendered.values, deltas));
    li := IndexOf(rendered.keys, last.id);
    moved := if li < |rendered.keys| then last.(top := start + Sum(hs[..li])) else last;
  }

  /** The walk after its first `i` items, one `Visited` step per item. */
  function Walking(rendered: OMap<Id, int>, deltas: map<Id, int>, start: int, viewPortTop: int,
                         last: RenderedItem, i: nat): (w: Walker)
    requires i <= |rendered.keys|
  {
    if i == 0 then Walker(rendered, 0, last, start)
    else Visited(Walking(rendered, deltas, start, viewPortTop, last, i - 1), deltas, viewPortTop, rendered.keys[i - 1])
  }

  /** The walk step by step agrees with its closed form. */
  lemma {:induction false} WalkingClosed(rendered: OMap<Id, int>, deltas: map<Id, int>, hs: seq<int>, start: int,
                                         viewPortTop: int, last: RenderedItem, li: nat, moved: RenderedItem, i: nat)
    requires WalkGiven(rendered, deltas, hs, start, last, li, moved) && i <= |rendered.keys|
    ensures Walking(rendered, deltas, start, viewPortTop, last, i)
            == WalkState(rendered, deltas, hs, start, viewPortTop, last, li, moved, i)
  {
    if i == 0 {
      WalkInit(rendered, deltas, hs, start, viewPortTop, last, li, moved);
    } else {
      WalkingClosed(rendered, deltas, hs, start, viewPortTop, last, li, moved, i - 1);
      WalkStep(rendered, deltas, hs, start, viewPortTop, last, li, moved, i - 1);
    }
  }

  /** The whole walk, step by step, agrees with its closed form. */
  lemma WalkingWalked(rendered: OMap<Id, int>, deltas: map<Id, int>, start: int, viewPortTop: int, last: RenderedItem)
    requires rendered.Valid()
    ensures var w := Walking(rendered, deltas, start, viewPortTop, last, |rendered.keys|);
            var r := Walked(rendered, deltas, start, viewPortTop, last);
            w.heights == r.heights && w.correction == r.correction && w.lastItem == r.lastItem
  {
    var hs, li, moved := WalkStart(rendered, deltas, start, last);
    WalkingClosed(rendered, deltas, hs, start, viewPortTop, last, li, moved, |rendered.keys|);
    WalkDone(rendered, deltas, hs, start, viewPortTop, last, li, moved);
  }

  /** The loop of `updateWithMeasurement` over the rendered heights. */
  method WalkLoop(rendered: OMap<Id, int>, deltas: map<Id, int>, start: int, viewPortTop: int, last: RenderedItem)
    returns (heights: OMap<Id, int>, correction: int, lastItem: RenderedItem, posFrom: int)
    requires rendered.Valid()
    ensures Walker(heights, correction, lastItem, posFrom)
            == Walking(rendered, deltas, start, viewPortTop, last, |rendered.keys|)
  {
    var keys := rendered.keys;
    heights, correction, lastItem := rendered, 0, last;
    posFrom := start;
    for i := 0 to |keys|
      invariant Walker(heights, correction, lastItem, posFrom) == Walking(rendered, deltas, start, viewPortTop, last, i)
      invariant heights.values.Keys == rendered.values.Keys
    {
      var curID := keys[i];
      heights, correction, lastItem, posFrom := Visit(deltas, viewPortTop, curID, heights, correction, lastItem, posFrom);
    }
  }

  /* ---------------------------------------------------------------------- */
  /* The class                                                               */
  /* ---------------------------------------------------------------------- */

  /** `LayoutData`. The `Scroll` it reads is passed to each method as the
      `View` of the tracker at the time of the call. */
  class LayoutData {
    const bufferSize: int
    var compoundedHeight: int
    var renderedHeights: OMap<Id, int>
    var firstRenderedItem: Option<RenderedItem>
    var lastRenderedItem: Option<RenderedItem>
    var scrollDelta: int
    var curIndex: int

    function State(): LayoutState
      reads this
    {
      LayoutState(compoundedHeight, renderedHeights, firstRenderedItem, lastRenderedItem, scrollDelta, curIndex)
    }

    ghost predicate Valid()
      reads this
    {
      State().Valid()
    }

    constructor (bufferSize: int)
      ensures Valid() && State() == Initial() && this.bufferSize == bufferSize
    {
      this.bufferSize := bufferSize;
      compoundedHeight := 0;
      renderedHeights := EmptyMap();
      firstRenderedItem, lastRenderedItem := None, None;
      scrollDelta := 0;
      curIndex := 0;
    }

    /** `shouldProcessedItemRender`. */
    predicate ShouldProcessedItemRender(v: View, curItemHeight: int)
      reads this
    {
      var posFrom := v.contentOffsetTop + compoundedHeight;
      var posTo := v.contentOffsetTop + compoundedHeight + curItemHeight;
      var renderedTop := v.scrollTop - bufferSize;
      var renderedBottom := v.scrollTop + v.viewportHeight + bufferSize;
      posFrom < renderedBottom && posTo > renderedTop
    }

    /** `process`: tells whether the item renders and records it. */
    method Process(v: View, id: Id, height: int) returns (rendered: bool)
      requires Valid()
      modifies this
      ensures Valid()
      ensures rendered == RendersAt(v, bufferSize, old(compoundedHeight), height)
      ensures State() == ProcessStep(old(State()), v, bufferSize, id, height)
    {
      if ShouldProcessedItemRender(v, height) {
        AddRendered(id, height);
        return true;
      } else {
        AddNonRendered(id, height);
        return false;
      }
    }

    /** `addNonRendered`. */
    method AddNonRendered(id: Id, height: int)
      modifies this
      ensures State() == WithNonRendered(old(State()), height)
    {
      compoundedHeight := compoundedHeight + height;
      curIndex := curIndex + 1;
    }

    /** `addRendered`. */
    method AddRendered(id: Id, height: int)
      modifies this
      ensures State() == WithRendered(old(State()), id, height)
    {
      if firstRenderedItem.None? {
        firstRenderedItem := Some(RenderedItem(compoundedHeight, curIndex, id));
      }
      lastRenderedItem := Some(RenderedItem(compoundedHeight, curIndex, id));
      compoundedHeight := compoundedHeight + height;
      renderedHeights := renderedHeights.Set(id, height);
      curIndex := curIndex + 1;
    }

    /** `updateWithMeasurement`. The walk works on copies of the rendered
        heights, the correction and the last rendered item, which are
        written back when it ends; nothing else reads them meanwhile. */
    method UpdateWithMeasurement(v: View, measurement: Measurement)
      requires Valid() && firstRenderedItem.Some?
      modifies this
      ensures Valid()
      ensures State() == Updated(old(State()), v, measurement)
    {
      ghost var s := State();
      var viewPortTop := v.scrollTop + scrollDelta;
      var posFrom := v.contentOffsetTop + firstRenderedItem.value.top;
      var heights, correction, last, posTo :=
        WalkLoop(renderedHeights, measurement.measuredItemsDelta, posFrom, viewPortTop, lastRenderedItem.value);
      renderedHeights := heights;
      scrollDelta := scrollDelta + correction;
      lastRenderedItem := Some(last);
      compoundedHeight := compoundedHeight + measurement.compoundMeasuredHeightDelta;
      UpdatedHeights(s, v, measurement);
    }

    /** `isItemInViewport`. */
    method IsItemInViewport(v: View, id: Id) returns (r: bool)
      requires Valid()
      ensures r == ItemInViewport(State(), v, id)
    {
      if !(id in renderedHeights.values) {
        return false;
      }
      var viewPortTop := v.scrollTop + scrollDelta;
      var viewPortBottom := viewPortTop + v.viewportHeight;
      var keys := renderedHeights.keys;
      ghost var hs := Heights(keys, renderedHeights.values);
      var posFrom := v.contentOffsetTop + firstRenderedItem.value.top;
      var posTo := posFrom;
      for i := 0 to |keys|
        invariant posFrom == posTo == v.contentOffsetTop + firstRenderedItem.value.top + Sum(hs[..i])
        invariant forall j :: 0 <= j < i ==> keys[j] != id
      {
        var curID := keys[i];
        var curHeight := renderedHeights.values[curID];
        posTo := posTo + curHeight;
        if id == curID {
          IndexOfDistinct(keys, i);
          assert posFrom == ItemTop(State(), v, id);
          return posFrom < viewPortBottom && posTo > viewPortTop;
        }
        posFrom := posFrom + curHeight;
        assert hs[..i + 1] == hs[..i] + [hs[i]];
        SumAppend(hs[..i], [hs[i]]);
      }
      assert false;
      return false;
    }
  }
}
