/** The scenarios of the layout tests (specs/layout.spec.ts): twenty items,
    each 100 high, processed from a fresh `LayoutData`, then one
    measurement that makes one rendered item 50 high. The tests name the
    items "0" to "19"; the lemmas hold for any twenty distinct ids, with
    `ids[k]` standing for the test's `String(k)`. */
module LayoutScenarios {
  import opened Common
  import opened Scroll
  import opened Measure
  import opened Layout

  /** The ids and heights `fillLayoutItems(layout, 20)` processes: twenty
      distinct ids, each item 100 high. */
  ghost predicate Twenty(ids: seq<Id>, hs: seq<int>) {
    && |ids| == 20 && |hs| == 20
    && Distinct(ids)
    && (forall k :: 0 <= k < 20 ==> hs[k] == 100)
  }

  /** The items rendered by the pass are those overlapping the buffered
      viewport. */
  ghost predicate RendersWindow(v: View, bufferSize: int, hs: seq<int>, lo: nat, hi: nat)
    requires |hs| == 20
  {
    forall k :: 0 <= k < 20 ==> (RendersNth(v, bufferSize, hs, k) <==> lo <= k < hi)
  }

  /** Item `k` renders when `[offset + 100k, offset + 100k + 100)` meets the
      buffered viewport. */
  lemma RendersNthHundred(v: View, bufferSize: int, ids: seq<Id>, hs: seq<int>, k: nat)
    requires Twenty(ids, hs) && k < 20
    ensures RendersNth(v, bufferSize, hs, k)
            <==> ShouldRender(v.contentOffsetTop + 100 * k, v.contentOffsetTop + 100 * k + 100,
                              v.scrollTop - bufferSize, v.scrollTop + v.viewportHeight + bufferSize)
  {
    SumConst(hs[..k], 100);
  }

  /** After the pass the rendered part is the window, the total is 2000 and
      no correction is made yet. */
  lemma FilledWindow(v: View, bufferSize: int, ids: seq<Id>, hs: seq<int>, lo: nat, hi: nat)
    requires Twenty(ids, hs) && lo < hi <= 20 && RendersWindow(v, bufferSize, hs, lo, hi)
    ensures var s := ProcessAll(Initial(), v, bufferSize, ids, hs);
            && s.Valid() && s.compoundedHeight == 2000 && s.scrollDelta == 0
            && WindowAt(s, ids, hs, lo, hi)
            && s.firstRenderedItem == Some(RenderedItem(100 * lo, lo, ids[lo]))
            && s.lastRenderedItem == Some(RenderedItem(100 * (hi - 1), hi - 1, ids[hi - 1]))
  {
    ProcessWindow(v, bufferSize, ids, hs, lo, hi, 20);
    assert ids[..20] == ids && hs[..20] == hs;
    ProcessAllTotals(Initial(), v, bufferSize, ids, hs);
    SumConst(hs, 100);
    SumConst(hs[..lo], 100);
    SumConst(hs[..hi - 1], 100);
    assert Sum(hs[..lo]) == 100 * lo;
    var s := ProcessAll(Initial(), v, bufferSize, ids, hs);
    assert WindowAt(s, ids, hs, lo, hi);
    assert s.firstRenderedItem == Some(RenderedItem(Sum(hs[..lo]), lo, ids[lo]));
    assert Sum(hs[..hi - 1]) == 100 * (hi - 1);
    assert s.lastRenderedItem == Some(RenderedItem(Sum(hs[..hi - 1]), hi - 1, ids[hi - 1]));
  }

  /** A run of equal heights with one of them moved by `d`. */
  lemma {:induction false} SumBumped(hs: seq<int>, c: int, j: nat, d: int, n: nat)
    requires n <= |hs|
    requires forall k :: 0 <= k < |hs| ==> hs[k] == c + (if k == j then d else 0)
    ensures Sum(hs[..n]) == c * n + (if j < n then d else 0)
  {
    if n > 0 {
      SumBumped(hs, c, j, d, n - 1);
      assert hs[..n][..n - 1] == hs[..n - 1];
    }
  }

  /** Every rendered item is 100 high; stated by recursion over the
      positions so that it unfolds one item at a time. */
  ghost predicate AllHundred(rendered: OMap<Id, int>) {
    HundredFrom(rendered, 0)
  }

  /** Every rendered item from position `k` on is 100 high. */
  ghost predicate HundredFrom(rendered: OMap<Id, int>, k: nat)
    decreases |rendered.keys| - k
  {
    k < |rendered.keys| ==> rendered.Get(rendered.keys[k]) == Some(100) && HundredFrom(rendered, k + 1)
  }

  lemma {:induction false} HundredAt(rendered: OMap<Id, int>, j: nat, k: nat)
    requires HundredFrom(rendered, j) && j <= k < |rendered.keys|
    ensures rendered.Get(rendered.keys[k]) == Some(100)
    decreases k - j
  {
    if j < k {
      HundredAt(rendered, j + 1, k);
    }
  }

  lemma {:induction false} HundredIntro(rendered: OMap<Id, int>, j: nat)
    requires forall k :: j <= k < |rendered.keys| ==> rendered.Get(rendered.keys[k]) == Some(100)
    ensures HundredFrom(rendered, j)
    decreases |rendered.keys| - j
  {
    if j < |rendered.keys| {
      HundredIntro(rendered, j + 1);
    }
  }

  /** The adjusted height of the `k`-th rendered item when only the `i`-th
      is measured, by `d`. */
  lemma BumpedAt(rendered: OMap<Id, int>, i: nat, d: int, k: nat)
    requires rendered.Valid() && AllHundred(rendered) && i < |rendered.keys| && k < |rendered.keys|
    ensures rendered.keys[k] in rendered.values
    ensures Adjusted(rendered.values, map[rendered.keys[i] := d])[rendered.keys[k]] == 100 + (if k == i then d else 0)
  {
    HundredAt(rendered, 0, k);
    if k != i {
      DistinctAt(rendered.keys, k, i);
    }
  }

  /** The walk's adjusted heights when only the `i`-th item is measured. */
  lemma BumpedHeights(rendered: OMap<Id, int>, i: nat, d: int)
    requires rendered.Valid() && AllHundred(rendered) && i < |rendered.keys|
    ensures var adj := Heights(rendered.keys, Adjusted(rendered.values, map[rendered.keys[i] := d]));
            forall k :: 0 <= k < |adj| ==> adj[k] == 100 + (if k == i then d else 0)
  {
    var adj := Heights(rendered.keys, Adjusted(rendered.values, map[rendered.keys[i] := d]));
    forall k | 0 <= k < |adj| ensures adj[k] == 100 + (if k == i then d else 0) {
      BumpedAt(rendered, i, d, k);
    }
  }

  /** Walking distinct keys of height 100 where only `keys[i]` is measured,
      by `d`: the correction is `d` exactly when that item starts above the
      viewport top. */
  lemma BumpedCorrection(keys: seq<Id>, adj: seq<int>, d: int, i: nat, start: int, viewTop: int)
    requires |keys| == |adj| && i < |keys| && Distinct(keys)
    requires forall k :: 0 <= k < |adj| ==> adj[k] == 100 + (if k == i then d else 0)
    ensures AboveSum(keys, adj, map[keys[i] := d], start, viewTop) == if start + 100 * i < viewTop then d else 0
  {
    var deltas := map[keys[i] := d];
    forall k | 0 <= k < |keys| && k != i ensures keys[k] !in deltas {
      DistinctAt(keys, k, i);
    }
    SingleMeasuredCorrection(keys, adj, deltas, start, viewTop, i, |keys|);
    assert keys[..|keys|] == keys && adj[..|adj|] == adj;
    SumBumped(adj, 100, i, d, i);
  }

  /** The last item `keys[n]` of a walk over distinct keys of height 100,
      where only `keys[i]` moved by `d`, is found at `n` and starts below
      the `n` items before it. */
  lemma BumpedLast(keys: seq<Id>, adj: seq<int>, d: int, i: nat, n: nat)
    requires |keys| == |adj| && n < |keys| && Distinct(keys)
    requires forall k :: 0 <= k < |adj| ==> adj[k] == 100 + (if k == i then d else 0)
    ensures IndexOf(keys, keys[n]) == n
    ensures Sum(adj[..n]) == 100 * n + (if i < n then d else 0)
  {
    SumBumped(adj, 100, i, d, n);
    IndexOfDistinct(keys, n);
  }

  /** The walk over rendered items of height 100 of which only the `i`-th
      is measured, by `d`, when the last rendered item is the `n`-th. */
  lemma WalkedBumped(rendered: OMap<Id, int>, deltas: map<Id, int>, i: nat, d: int, n: nat, start: int, viewTop: int,
                     last: RenderedItem)
    requires rendered.Valid() && AllHundred(rendered) && i < |rendered.keys| && n < |rendered.keys|
    requires deltas == map[rendered.keys[i] := d] && last.id == rendered.keys[n]
    ensures var w := Walking(rendered, deltas, start, viewTop, last, |rendered.keys|);
            && w.correction == (if start + 100 * i < viewTop then d else 0)
            && w.lastItem == last.(top := start + 100 * n + (if i < n then d else 0))
  {
    WalkingWalked(rendered, deltas, start, viewTop, last);
    var keys := rendered.keys;
    var adj := Heights(keys, Adjusted(rendered.values, map[keys[i] := d]));
    BumpedHeights(rendered, i, d);
    BumpedCorrection(keys, adj, d, i, start, viewTop);
    BumpedLast(keys, adj, d, i, n);
  }

  /** Measuring item `j` of the window by `d` (with `d` as the aggregate,
      as the tests do): the correction is `d` exactly when the item starts
      above the scroll top, the item's height and the total move by `d`,
      and the last rendered item moves to its running position. */
  lemma MeasureOne(s: LayoutState, v: View, ids: seq<Id>, hs: seq<int>, lo: nat, hi: nat, j: nat, d: int)
    requires Twenty(ids, hs) && lo <= j < hi <= 20
    requires s.Valid() && s.compoundedHeight == 2000 && s.scrollDelta == 0 && WindowAt(s, ids, hs, lo, hi)
    requires s.firstRenderedItem == Some(RenderedItem(100 * lo, lo, ids[lo]))
    requires s.lastRenderedItem == Some(RenderedItem(100 * (hi - 1), hi - 1, ids[hi - 1]))
    ensures var r := Updated(s, v, Measurement(map[ids[j] := d], d));
            && r.scrollDelta == (if v.contentOffsetTop + 100 * j < v.scrollTop then d else 0)
            && r.renderedHeights.Get(ids[j]) == Some(100 + d)
            && r.compoundedHeight == 2000 + d
            && r.lastRenderedItem == Some(RenderedItem(v.contentOffsetTop + 100 * (hi - 1) + (if j < hi - 1 then d else 0),
                                                       hi - 1, ids[hi - 1]))
  {
    WindowKeys(s, ids, hs, lo, hi, j);
    MeasureRendered(s, v, ids[j], j - lo, hi - 1 - lo, d);
    MeasureHeight(s, v, ids[j], d);
  }

  /** The rendered items after the pass, by position. */
  lemma WindowKeys(s: LayoutState, ids: seq<Id>, hs: seq<int>, lo: nat, hi: nat, j: nat)
    requires Twenty(ids, hs) && lo <= j < hi <= 20 && WindowAt(s, ids, hs, lo, hi)
    ensures AllHundred(s.renderedHeights) && |s.renderedHeights.keys| == hi - lo
    ensures s.renderedHeights.keys[j - lo] == ids[j] && s.renderedHeights.keys[hi - 1 - lo] == ids[hi - 1]
    ensures s.renderedHeights.Get(ids[j]) == Some(100)
  {
    var keys := s.renderedHeights.keys;
    assert keys == ids[lo..hi];
    assert s.renderedHeights.Get(ids[j]) == Some(100);
    forall k | 0 <= k < |keys| ensures s.renderedHeights.Get(keys[k]) == Some(100) {
      assert keys[k] == ids[lo + k];
      assert s.renderedHeights.Get(ids[lo + k]) == Some(hs[lo + k]);
    }
    HundredIntro(s.renderedHeights, 0);
  }

  /** Measuring the `i`-th of rendered items of height 100 by `d`, when the
      last rendered item is the `n`-th: the correction and the new last
      rendered item. */
  lemma MeasureRendered(s: LayoutState, v: View, id: Id, i: nat, n: nat, d: int)
    requires s.Valid() && AllHundred(s.renderedHeights)
    requires i < |s.renderedHeights.keys| && n < |s.renderedHeights.keys| && s.renderedHeights.keys[i] == id
    requires s.firstRenderedItem.Some? && s.lastRenderedItem.Some?
    requires s.lastRenderedItem.value.id == s.renderedHeights.keys[n]
    ensures var top := v.contentOffsetTop + s.firstRenderedItem.value.top;
            var r := Updated(s, v, Measurement(map[id := d], d));
            && r.scrollDelta == s.scrollDelta + (if top + 100 * i < v.scrollTop + s.scrollDelta then d else 0)
            && r.lastRenderedItem == Some(s.lastRenderedItem.value.(top := top + 100 * n + (if i < n then d else 0)))
  {
    var m := Measurement(map[id := d], d);
    var start := v.contentOffsetTop + s.firstRenderedItem.value.top;
    var viewTop := v.scrollTop + s.scrollDelta;
    WalkedBumped(s.renderedHeights, m.measuredItemsDelta, i, d, n, start, viewTop, s.lastRenderedItem.value);
  }

  /** Measuring one rendered item of height 100 by `d`: its height and the
      total move by `d`. */
  lemma MeasureHeight(s: LayoutState, v: View, id: Id, d: int)
    requires s.Valid() && s.firstRenderedItem.Some? && s.renderedHeights.Get(id) == Some(100)
    ensures var r := Updated(s, v, Measurement(map[id := d], d));
            r.renderedHeights.Get(id) == Some(100 + d) && r.compoundedHeight == s.compoundedHeight + d
  {
    UpdatedHeights(s, v, Measurement(map[id := d], d));
  }

  /** 'should pass base checking': scroll top 0, no buffer. */
  lemma BaseChecking(ids: seq<Id>, hs: seq<int>)
    requires Twenty(ids, hs)
    ensures var v := View(0, 500, 0);
            var s := ProcessAll(Initial(), v, 0, ids, hs);
            && s.Valid()
            && s.compoundedHeight == 2000
            && s.firstRenderedItem == Some(RenderedItem(0, 0, ids[0]))
            && s.lastRenderedItem == Some(RenderedItem(400, 4, ids[4]))
            && var r := Updated(s, v, Measurement(map[ids[4] := -50], -50));
               && r.scrollDelta == 0
               && r.IsInViewport(v, 400) && r.IsInViewport(v, 499) && !r.IsInViewport(v, 500)
               && r.renderedHeights.Get(ids[4]) == Some(50)
               && r.compoundedHeight == 1950
  {
    var v := View(0, 500, 0);
    forall k | 0 <= k < 20 ensures RendersNth(v, 0, hs, k) <==> 0 <= k < 5 {
      RendersNthHundred(v, 0, ids, hs, k);
    }
    FilledWindow(v, 0, ids, hs, 0, 5);
    MeasureOne(ProcessAll(Initial(), v, 0, ids, hs), v, ids, hs, 0, 5, 4, -50);
  }

  /** 'should have isInVieport to give ajusted values when a measurement is
      done': scroll top 500, buffer 100; the measured item starts above the
      viewport, so the viewport moves up by 50. */
  lemma AdjustedViewport(ids: seq<Id>, hs: seq<int>)
    requires Twenty(ids, hs)
    ensures var v := View(500, 500, 0);
            var s := ProcessAll(Initial(), v, 100, ids, hs);
            && s.Valid() && s.firstRenderedItem.Some?
            && !s.IsInViewport(v, 450)
            && var r := Updated(s, v, Measurement(map[ids[4] := -50], -50));
               && r.scrollDelta == -50 && r.ScrollTop(v) == 450
               && !r.IsInViewport(v, 449) && r.IsInViewport(v, 450)
               && r.IsInViewport(v, 949) && !r.IsInViewport(v, 950)
               && r.lastRenderedItem == Some(RenderedItem(950, 10, ids[10]))
  {
    var v := View(500, 500, 0);
    forall k | 0 <= k < 20 ensures RendersNth(v, 100, hs, k) <==> 4 <= k < 11 {
      RendersNthHundred(v, 100, ids, hs, k);
    }
    FilledWindow(v, 100, ids, hs, 4, 11);
    MeasureOne(ProcessAll(Initial(), v, 100, ids, hs), v, ids, hs, 4, 11, 4, -50);
  }

  /** 'should handle currentOffsetTop correctly': as above with a content
      offset of 100, so the window starts one item earlier. */
  lemma ContentOffset(ids: seq<Id>, hs: seq<int>)
    requires Twenty(ids, hs)
    ensures var v := View(500, 500, 100);
            var s := ProcessAll(Initial(), v, 100, ids, hs);
            && s.Valid() && s.firstRenderedItem.Some?
            && !s.IsInViewport(v, 450)
            && var r := Updated(s, v, Measurement(map[ids[3] := -50], -50));
               && r.scrollDelta == -50 && r.ScrollTop(v) == 450
               && !r.IsInViewport(v, 449) && r.IsInViewport(v, 450)
               && r.IsInViewport(v, 949) && !r.IsInViewport(v, 950)
               && r.lastRenderedItem == Some(RenderedItem(950, 9, ids[9]))
  {
    var v := View(500, 500, 100);
    forall k | 0 <= k < 20 ensures RendersNth(v, 100, hs, k) <==> 3 <= k < 10 {
      RendersNthHundred(v, 100, ids, hs, k);
    }
    FilledWindow(v, 100, ids, hs, 3, 10);
    MeasureOne(ProcessAll(Initial(), v, 100, ids, hs), v, ids, hs, 3, 10, 3, -50);
  }
}
