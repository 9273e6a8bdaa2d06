/** The measurer of `createItemsMeasusrer` (src/measure.ts): a table of
    measured heights by id, a set of ids whose height is outdated, and a
    queue of item elements to measure in the next animation frame. A flush
    of the queue computes each item's height (with the item margin, which is
    discovered once) and its change against the height assumed so far. */
module Measure {
  import opened Common

  /** A DOM element of an item, as read when the queue is flushed: `node` is
      its identity, `height` what `getBoundingClientRect().height` gives and
      `marginTop` the computed `margin-top` (0 when there is none). */
  datatype Element = Element(node: nat, height: int, marginTop: int)

  /** What `onMeasure` receives. */
  datatype Measurement = Measurement(measuredItemsDelta: map<Id, int>, compoundMeasuredHeightDelta: int)

  /** `itemMarginTop || 0`; `None` stands for `undefined`. */
  function MarginOr0(m: Option<int>): int {
    if m.Some? then m.value else 0
  }

  /** `itemsHeights.get(id) || expectedItemHeight`: a missing or zero height
      falls back to the expected one. */
  function Expected(heights: map<Id, int>, id: Id, expectedItemHeight: int): (r: int)
    ensures id in heights && heights[id] != 0 ==> r == heights[id]
    ensures id !in heights || heights[id] == 0 ==> r == expectedItemHeight
  {
    if id in heights && heights[id] != 0 then heights[id] else expectedItemHeight
  }

  /* ---------------------------------------------------------------------- */
  /* Margin discovery                                                        */
  /* ---------------------------------------------------------------------- */

  /** The margin bookkeeping of a flush: `itemMarginTop`, `newItemMarginValue`
      and the node of `firstWithMargin`. */
  datatype MarginScan = MarginScan(margin: Option<int>, newMarginValue: int, firstWithMargin: Option<nat>)

  /** One element's part in margin discovery: while the margin is undefined
      the element's margin-top is read, and the first nonzero one becomes the
      margin. */
  function Discover(s: MarginScan, elem: Element): MarginScan {
    if s.margin.Some? then s
    else if elem.marginTop != 0 then MarginScan(Some(elem.marginTop), elem.marginTop, Some(elem.node))
    else s.(newMarginValue := 0)
  }

  /** Margin discovery over the elements in queue order. */
  function DiscoverAll(s: MarginScan, elems: seq<Element>): MarginScan {
    if elems == [] then s else Discover(DiscoverAll(s, elems[..|elems| - 1]), elems[|elems| - 1])
  }

  /** The position of the first element with a nonzero margin, or the
      number of elements when there is none. */
  function FirstMarginIndex(elems: seq<Element>): (k: nat)
    ensures k <= |elems|
    ensures forall j :: 0 <= j < k ==> elems[j].marginTop == 0
    ensures k < |elems| ==> elems[k].marginTop != 0
  {
    if elems == [] then 0
    else if elems[0].marginTop != 0 then 0
    else 1 + FirstMarginIndex(elems[1..])
  }

  /** The bookkeeping after the first `i` elements, in closed form: a margin
      defined before the flush is kept and nothing is read; otherwise the
      margin is the first nonzero margin-top among them, if any. */
  function ScanAt(m0: Option<int>, elems: seq<Element>, i: nat): MarginScan {
    if m0.Some? then MarginScan(m0, 0, None)
    else
      var k := FirstMarginIndex(elems);
      if k < i && k < |elems| then MarginScan(Some(elems[k].marginTop), elems[k].marginTop, Some(elems[k].node))
      else MarginScan(None, 0, None)
  }

  lemma {:induction false} DiscoverPrefix(m0: Option<int>, elems: seq<Element>, i: nat)
    requires i <= |elems|
    ensures DiscoverAll(MarginScan(m0, 0, None), elems[..i]) == ScanAt(m0, elems, i)
  {
    if i > 0 {
      assert elems[..i][..i - 1] == elems[..i - 1];
      DiscoverPrefix(m0, elems, i - 1);
    }
  }

  /** The margin the `i`-th element's height is stored with. */
  function UsedMargin(m0: Option<int>, elems: seq<Element>, i: nat): int {
    MarginOr0(ScanAt(m0, elems, i + 1).margin)
  }

  /* ---------------------------------------------------------------------- */
  /* The flush                                                               */
  /* ---------------------------------------------------------------------- */

  /** The state the `forEach` of `measure` carries. */
  datatype Pass = Pass(heights: map<Id, int>, invalid: set<Id>, deltas: map<Id, int>, compound: int, scan: MarginScan)

  /** One `forEach` step for `model` and its element. */
  function Step(p: Pass, model: Model, elem: Element, expectedItemHeight: int): Pass {
    var expected := Expected(p.heights, model.id, expectedItemHeight);
    var scan := Discover(p.scan, elem);
    var actual := MarginOr0(scan.margin) + elem.height;
    Pass(p.heights[model.id := actual], p.invalid - {model.id}, p.deltas[model.id := actual - expected],
         p.compound + (actual - expected), scan)
  }

  /** The `forEach` over the queue. */
  function FlushPass(p: Pass, models: seq<Model>, elems: seq<Element>, expectedItemHeight: int): Pass
    requires |models| == |elems|
  {
    if models == [] then p
    else
      var n := |models| - 1;
      Step(FlushPass(p, models[..n], elems[..n], expectedItemHeight), models[n], elems[n], expectedItemHeight)
  }

  /** The margin patch, applied alike to the stored heights and to the
      deltas: every queue entry before the first one whose element is
      `node` gets `margin` added to its value. */
  function Patch(values: map<Id, int>, models: seq<Model>, elems: seq<Element>, node: nat, margin: int): map<Id, int>
    requires |models| == |elems|
    requires forall k :: 0 <= k < |models| ==> models[k].id in values
  {
    if models == [] || elems[0].node == node then values
    else
      var id := models[0].id;
      Patch(values[id := values[id] + margin], models[1..], elems[1..], node, margin)
  }

  /** What a flush produces: the new height table and invalid set, the
      measurement handed to `onMeasure`, and the margin from then on. */
  datatype Flushed = Flushed(heights: map<Id, int>, invalid: set<Id>, measurement: Measurement, margin: int)

  function Flush(heights: map<Id, int>, invalid: set<Id>, models: seq<Model>, elems: seq<Element>,
                 m0: Option<int>, expectedItemHeight: int): Flushed
    requires |models| == |elems|
  {
    var p := FlushPass(Pass(heights, invalid, map[], 0, MarginScan(m0, 0, None)), models, elems, expectedItemHeight);
    FlushPassKeys(heights, invalid, m0, models, elems, expectedItemHeight);
    var margin := MarginOr0(p.scan.margin);
    var patch := p.scan.newMarginValue != 0 && p.scan.firstWithMargin.Some?;
    var heights := if patch then Patch(p.heights, models, elems, p.scan.firstWithMargin.value, margin) else p.heights;
    var deltas := if patch then Patch(p.deltas, models, elems, p.scan.firstWithMargin.value, margin) else p.deltas;
    Flushed(heights, p.invalid, Measurement(deltas, p.compound), margin)
  }

  /** Every queued id has a stored height and a delta once the pass is done. */
  lemma {:induction false} FlushPassKeys(heights: map<Id, int>, invalid: set<Id>, m0: Option<int>,
                                         models: seq<Model>, elems: seq<Element>, expectedItemHeight: int)
    requires |models| == |elems|
    ensures var p := FlushPass(Pass(heights, invalid, map[], 0, MarginScan(m0, 0, None)), models, elems, expectedItemHeight);
            forall k :: 0 <= k < |models| ==> models[k].id in p.heights && models[k].id in p.deltas
  {
    if models != [] {
      var n := |models| - 1;
      FlushPassKeys(heights, invalid, m0, models[..n], elems[..n], expectedItemHeight);
    }
  }

  /* ---------------------------------------------------------------------- */
  /* The flush in closed form                                                */
  /* ---------------------------------------------------------------------- */

  /** No two queued models carry the same id. */
  ghost predicate DistinctIds(models: seq<Model>) {
    forall a, b :: 0 <= a < b < |models| ==> models[a].id != models[b].id
  }

  /** No two queued models share an element. */
  ghost predicate DistinctNodes(elems: seq<Element>) {
    forall a, b :: 0 <= a < b < |elems| ==> elems[a].node != elems[b].node
  }

  /** The ids of the first `i` queued models. */
  function PrefixIds(models: seq<Model>, i: nat): set<Id> {
    set k | 0 <= k < i && k < |models| :: models[k].id
  }

  /** The sum of the deltas `d` holds for the ids of `models`. */
  function DeltaSum(d: map<Id, int>, models: seq<Model>): int {
    if models == [] then 0
    else
      var id := models[|models| - 1].id;
      DeltaSum(d, models[..|models| - 1]) + (if id in d then d[id] else 0)
  }

  lemma {:induction false} DeltaSumFrame(d: map<Id, int>, id: Id, v: int, models: seq<Model>)
    requires forall k :: 0 <= k < |models| ==> models[k].id != id
    ensures DeltaSum(d[id := v], models) == DeltaSum(d, models)
  {
    if models != [] {
      DeltaSumFrame(d, id, v, models[..|models| - 1]);
    }
  }

  lemma ScanStep(m0: Option<int>, elems: seq<Element>, i: nat)
    requires i < |elems|
    ensures Discover(ScanAt(m0, elems, i), elems[i]) == ScanAt(m0, elems, i + 1)
  {
    if m0.None? {
      var k := FirstMarginIndex(elems);
      if k > i {
        assert elems[i].marginTop == 0;
      }
    }
  }

  /** The pass over the first `i` queue entries, starting from the height
      table `h0`, the invalid set `inv0` and the margin `m0`. */
  function PassAt(h0: map<Id, int>, inv0: set<Id>, m0: Option<int>,
                  models: seq<Model>, elems: seq<Element>, e: int, i: nat): Pass
    requires |models| == |elems| && i <= |models|
  {
    FlushPass(Pass(h0, inv0, map[], 0, MarginScan(m0, 0, None)), models[..i], elems[..i], e)
  }

  lemma PassAtStep(h0: map<Id, int>, inv0: set<Id>, m0: Option<int>,
                   models: seq<Model>, elems: seq<Element>, e: int, i: nat)
    requires |models| == |elems| && 0 < i <= |models|
    ensures PassAt(h0, inv0, m0, models, elems, e, i)
            == Step(PassAt(h0, inv0, m0, models, elems, e, i - 1), models[i - 1], elems[i - 1], e)
  {
    assert models[..i][..i - 1] == models[..i - 1] && elems[..i][..i - 1] == elems[..i - 1];
  }

  lemma {:induction false} PassScan(h0: map<Id, int>, inv0: set<Id>, m0: Option<int>,
                                    models: seq<Model>, elems: seq<Element>, e: int, i: nat)
    requires |models| == |elems| && i <= |models|
    ensures PassAt(h0, inv0, m0, models, elems, e, i).scan == ScanAt(m0, elems, i)
  {
    if i > 0 {
      PassScan(h0, inv0, m0, models, elems, e, i - 1);
      PassAtStep(h0, inv0, m0, models, elems, e, i);
      ScanStep(m0, elems, i - 1);
    }
  }

  /** Entry `i - 1` stores its height and its delta, with the margin in
      force at its turn. */
  lemma PassAtNext(h0: map<Id, int>, inv0: set<Id>, m0: Option<int>,
                   models: seq<Model>, elems: seq<Element>, e: int, i: nat)
    requires |models| == |elems| && 0 < i <= |models|
    ensures var p := PassAt(h0, inv0, m0, models, elems, e, i - 1);
            var p' := PassAt(h0, inv0, m0, models, elems, e, i);
            var id := models[i - 1].id;
            var actual := UsedMargin(m0, elems, i - 1) + elems[i - 1].height;
            && p'.heights == p.heights[id := actual]
            && p'.deltas == p.deltas[id := actual - Expected(p.heights, id, e)]
  {
    PassAtStep(h0, inv0, m0, models, elems, e, i);
    PassScan(h0, inv0, m0, models, elems, e, i - 1);
    ScanStep(m0, elems, i - 1);
  }

  /** Heights of ids outside the first `i` entries are untouched by them. */
  lemma {:induction false} PassHeightsOthers(h0: map<Id, int>, inv0: set<Id>, m0: Option<int>,
                                             models: seq<Model>, elems: seq<Element>, e: int, i: nat, other: Id)
    requires |models| == |elems| && i <= |models| && other !in PrefixIds(models, i)
    ensures var p := PassAt(h0, inv0, m0, models, elems, e, i);
            && (other in p.heights <==> other in h0)
            && (other in h0 ==> p.heights[other] == h0[other])
  {
    if i > 0 {
      assert other != models[i - 1].id && other !in PrefixIds(models, i - 1);
      PassAtNext(h0, inv0, m0, models, elems, e, i);
      PassHeightsOthers(h0, inv0, m0, models, elems, e, i - 1, other);
    }
  }

  /** After the first `i` entries (ids distinct) entry `k` has its height
      stored with the margin in force at its turn. */
  lemma {:induction false} PassHeightsAt(h0: map<Id, int>, inv0: set<Id>, m0: Option<int>,
                                         models: seq<Model>, elems: seq<Element>, e: int, i: nat, k: nat)
    requires |models| == |elems| && k < i <= |models| && DistinctIds(models)
    ensures var p := PassAt(h0, inv0, m0, models, elems, e, i);
            models[k].id in p.heights && p.heights[models[k].id] == UsedMargin(m0, elems, k) + elems[k].height
  {
    PassAtNext(h0, inv0, m0, models, elems, e, i);
    if k < i - 1 {
      assert models[k].id != models[i - 1].id;
      PassHeightsAt(h0, inv0, m0, models, elems, e, i - 1, k);
    }
  }

  /** After the first `i` entries (ids distinct) each of them has its
      height stored with the margin in force at its turn, and every other
      height is untouched. */
  lemma PassHeights(h0: map<Id, int>, inv0: set<Id>, m0: Option<int>,
                    models: seq<Model>, elems: seq<Element>, e: int, i: nat)
    requires |models| == |elems| && i <= |models| && DistinctIds(models)
    ensures var p := PassAt(h0, inv0, m0, models, elems, e, i);
            && (forall k :: 0 <= k < i ==>
                  (models[k].id in p.heights && p.heights[models[k].id] == UsedMargin(m0, elems, k) + elems[k].height))
            && (forall id :: id !in PrefixIds(models, i) ==>
                  (id in p.heights <==> id in h0) && (id in h0 ==> p.heights[id] == h0[id]))
  {
    forall k | 0 <= k < i
      ensures var p := PassAt(h0, inv0, m0, models, elems, e, i);
              models[k].id in p.heights && p.heights[models[k].id] == UsedMargin(m0, elems, k) + elems[k].height
    {
      PassHeightsAt(h0, inv0, m0, models, elems, e, i, k);
    }
    forall other | other !in PrefixIds(models, i)
      ensures var p := PassAt(h0, inv0, m0, models, elems, e, i);
              (other in p.heights <==> other in h0) && (other in h0 ==> p.heights[other] == h0[other])
    {
      PassHeightsOthers(h0, inv0, m0, models, elems, e, i, other);
    }
  }

  /** After the first `i` entries the deltas hold exactly their ids. */
  lemma {:induction false} PassDeltaKeys(h0: map<Id, int>, inv0: set<Id>, m0: Option<int>,
                                         models: seq<Model>, elems: seq<Element>, e: int, i: nat)
    requires |models| == |elems| && i <= |models|
    ensures PassAt(h0, inv0, m0, models, elems, e, i).deltas.Keys == PrefixIds(models, i)
  {
    if i > 0 {
      PassDeltaKeys(h0, inv0, m0, models, elems, e, i - 1);
      PassAtNext(h0, inv0, m0, models, elems, e, i);
      PrefixIdsNext(models, i);
    }
  }

  /** After the first `i` entries (ids distinct) the deltas hold exactly
      their ids, each the stored height minus the height assumed before the
      flush. */
  lemma {:induction false} PassDeltas(h0: map<Id, int>, inv0: set<Id>, m0: Option<int>,
                                      models: seq<Model>, elems: seq<Element>, e: int, i: nat)
    requires |models| == |elems| && i <= |models| && DistinctIds(models)
    ensures var p := PassAt(h0, inv0, m0, models, elems, e, i);
            && p.deltas.Keys == PrefixIds(models, i)
            && (forall k :: 0 <= k < i ==>
                  p.deltas[models[k].id] == UsedMargin(m0, elems, k) + elems[k].height - Expected(h0, models[k].id, e))
  {
    PassDeltaKeys(h0, inv0, m0, models, elems, e, i);
    if i > 0 {
      var j := i - 1;
      var p := PassAt(h0, inv0, m0, models, elems, e, j);
      var id := models[j].id;
      assert Expected(p.heights, id, e) == Expected(h0, id, e) by {
        assert id !in PrefixIds(models, j);
        PassHeights(h0, inv0, m0, models, elems, e, j);
      }
      PassAtNext(h0, inv0, m0, models, elems, e, i);
      PassDeltas(h0, inv0, m0, models, elems, e, j);
    }
  }

  /** The measured ids leave the invalid set. */
  lemma {:induction false} PassInvalid(h0: map<Id, int>, inv0: set<Id>, m0: Option<int>,
                                       models: seq<Model>, elems: seq<Element>, e: int, i: nat)
    requires |models| == |elems| && i <= |models|
    ensures PassAt(h0, inv0, m0, models, elems, e, i).invalid == inv0 - PrefixIds(models, i)
  {
    if i > 0 {
      PassInvalid(h0, inv0, m0, models, elems, e, i - 1);
      PassAtStep(h0, inv0, m0, models, elems, e, i);
      assert PrefixIds(models, i) == PrefixIds(models, i - 1) + {models[i - 1].id};
    }
  }

  /** The aggregate is the sum of the per-id deltas (ids distinct). */
  lemma {:induction false} PassCompound(h0: map<Id, int>, inv0: set<Id>, m0: Option<int>,
                                        models: seq<Model>, elems: seq<Element>, e: int, i: nat)
    requires |models| == |elems| && i <= |models| && DistinctIds(models)
    ensures var p := PassAt(h0, inv0, m0, models, elems, e, i);
            p.compound == DeltaSum(p.deltas, models[..i])
  {
    if i > 0 {
      var j := i - 1;
      PassCompound(h0, inv0, m0, models, elems, e, j);
      PassAtStep(h0, inv0, m0, models, elems, e, i);
      var p := PassAt(h0, inv0, m0, models, elems, e, j);
      var p' := PassAt(h0, inv0, m0, models, elems, e, i);
      var id := models[j].id;
      assert models[..i][..j] == models[..j];
      DeltaSumFrame(p.deltas, id, p'.deltas[id], models[..j]);
    }
  }

  /** The position of the first element that is `node`, or the number of
      elements when there is none. */
  function IndexOfNode(elems: seq<Element>, node: nat): (k: nat)
    ensures k <= |elems|
    ensures forall j :: 0 <= j < k ==> elems[j].node != node
    ensures k < |elems| ==> elems[k].node == node
  {
    if elems == [] then 0
    else if elems[0].node == node then 0
    else 1 + IndexOfNode(elems[1..], node)
  }

  /** With distinct elements, an element is found at its own position. */
  lemma IndexOfDistinctNode(elems: seq<Element>, k: nat)
    requires DistinctNodes(elems) && k < |elems|
    ensures IndexOfNode(elems, elems[k].node) == k
  {
    var j := IndexOfNode(elems, elems[k].node);
    assert j <= k;
  }

  lemma PrefixIdsTail(models: seq<Model>, i: nat)
    requires models != [] && i > 0
    ensures PrefixIds(models, i) == {models[0].id} + PrefixIds(models[1..], i - 1)
  {
    forall id | id in PrefixIds(models, i) ensures id in {models[0].id} + PrefixIds(models[1..], i - 1) {
      var k :| 0 <= k < i && k < |models| && models[k].id == id;
      if k > 0 {
        assert models[1..][k - 1] == models[k];
      }
    }
    forall id | id in PrefixIds(models[1..], i - 1) ensures id in PrefixIds(models, i) {
      var k :| 0 <= k < i - 1 && k < |models[1..]| && models[1..][k].id == id;
      assert models[k + 1].id == id;
    }
  }

  /** With distinct ids, the `k`-th id is among the first `i` exactly when
      `k < i`. */
  lemma PrefixIdsNext(models: seq<Model>, i: nat)
    requires 0 < i <= |models|
    ensures PrefixIds(models, i) == PrefixIds(models, i - 1) + {models[i - 1].id}
  {
    forall id | id in PrefixIds(models, i) ensures id in PrefixIds(models, i - 1) + {models[i - 1].id} {
      var k :| 0 <= k < i && k < |models| && models[k].id == id;
    }
  }

  lemma PrefixIdsDistinct(models: seq<Model>, i: nat, k: nat)
    requires DistinctIds(models) && k < |models|
    ensures models[k].id in PrefixIds(models, i) <==> k < i
  {
    if models[k].id in PrefixIds(models, i) {
      var j :| 0 <= j < i && j < |models| && models[j].id == models[k].id;
      assert j == k;
    }
  }

  /** The patch adds `margin` to the value of exactly the ids of the entries
      before the first one whose element is `node` (ids distinct). */
  lemma {:induction false} PatchClosed(values: map<Id, int>, models: seq<Model>, elems: seq<Element>, node: nat, margin: int)
    requires |models| == |elems| && DistinctIds(models)
    requires forall k :: 0 <= k < |models| ==> models[k].id in values
    ensures var r := Patch(values, models, elems, node, margin);
            && r.Keys == values.Keys
            && forall id :: id in values ==>
                 r[id] == values[id] + (if id in PrefixIds(models, IndexOfNode(elems, node)) then margin else 0)
    decreases |models|
  {
    if models != [] && elems[0].node != node {
      var id := models[0].id;
      var v' := values[id := values[id] + margin];
      var ms, es := models[1..], elems[1..];
      assert DistinctIds(ms);
      forall k | 0 <= k < |ms| ensures ms[k].id in v' {
        assert ms[k] == models[k + 1];
      }
      PatchClosed(v', ms, es, node, margin);
      var stop := IndexOfNode(elems, node);
      assert stop == 1 + IndexOfNode(es, node);
      PrefixIdsTail(models, stop);
      assert id !in PrefixIds(ms, stop - 1) by {
        forall k | 0 <= k < stop - 1 && k < |ms| ensures ms[k].id != id {
          assert ms[k] == models[k + 1];
        }
      }
    }
  }

  /** Adding `margin` to the deltas of the first `stop` entries adds
      `stop` times `margin` to their sum. */
  lemma {:induction false} DeltaSumShift(d: map<Id, int>, d': map<Id, int>, models: seq<Model>, stop: nat, margin: int, i: nat)
    requires i <= |models| && stop <= |models|
    requires forall k :: 0 <= k < |models| ==> models[k].id in d && models[k].id in d'
    requires forall k :: 0 <= k < |models| ==> d'[models[k].id] == d[models[k].id] + (if k < stop then margin else 0)
    ensures DeltaSum(d', models[..i]) == DeltaSum(d, models[..i]) + (if i < stop then i else stop) * margin
  {
    if i > 0 {
      DeltaSumShift(d, d', models, stop, margin, i - 1);
      assert models[..i][..i - 1] == models[..i - 1];
    }
  }

  /** The margin a flush leaves behind: the one defined before it, else
      the first nonzero margin-top in the queue, else 0. */
  function MarginAfter(m0: Option<int>, elems: seq<Element>): int {
    if m0.Some? then m0.value
    else if FirstMarginIndex(elems) < |elems| then elems[FirstMarginIndex(elems)].marginTop
    else 0
  }

  /** How many entries the margin patch touches: those before the first
      element with a margin, when the margin is discovered in this flush. */
  function PatchedCount(m0: Option<int>, elems: seq<Element>): nat {
    if m0.None? && FirstMarginIndex(elems) < |elems| then FirstMarginIndex(elems) else 0
  }

  /** A flush in terms of its pass: the margin patch runs exactly when
      the margin is discovered in this flush. */
  lemma FlushShape(h0: map<Id, int>, inv0: set<Id>, models: seq<Model>, elems: seq<Element>, m0: Option<int>, e: int)
    requires |models| == |elems|
    ensures var p := PassAt(h0, inv0, m0, models, elems, e, |models|);
            var r := Flush(h0, inv0, models, elems, m0, e);
            var stop := FirstMarginIndex(elems);
            && (forall k :: 0 <= k < |models| ==> models[k].id in p.heights && models[k].id in p.deltas)
            && r.invalid == p.invalid
            && r.measurement.compoundMeasuredHeightDelta == p.compound
            && r.margin == MarginAfter(m0, elems)
            && (if m0.None? && stop < |elems| then
                  && r.heights == Patch(p.heights, models, elems, elems[stop].node, r.margin)
                  && r.measurement.measuredItemsDelta == Patch(p.deltas, models, elems, elems[stop].node, r.margin)
                else
                  r.heights == p.heights && r.measurement.measuredItemsDelta == p.deltas)
  {
    var n := |models|;
    assert models[..n] == models && elems[..n] == elems;
    PassScan(h0, inv0, m0, models, elems, e, n);
    FlushPassKeys(h0, inv0, m0, models, elems, e);
  }

  /** The margin an entry was stored with: none before the first element
      with a margin when the margin is discovered in this flush, the final
      margin otherwise. */
  lemma UsedMarginClosed(m0: Option<int>, elems: seq<Element>, k: nat)
    requires k < |elems|
    ensures UsedMargin(m0, elems, k)
            == if m0.None? && FirstMarginIndex(elems) < |elems| && k < FirstMarginIndex(elems) then 0
               else MarginAfter(m0, elems)
  {
  }

  /** The flush stores entry `k`'s height plus the final margin. */
  lemma FlushHeightAt(h0: map<Id, int>, inv0: set<Id>, models: seq<Model>, elems: seq<Element>, m0: Option<int>, e: int, k: nat)
    requires |models| == |elems| && DistinctIds(models) && DistinctNodes(elems) && k < |models|
    ensures var r := Flush(h0, inv0, models, elems, m0, e);
            models[k].id in r.heights && r.heights[models[k].id] == r.margin + elems[k].height
  {
    var n := |models|;
    FlushShape(h0, inv0, models, elems, m0, e);
    PassHeightsAt(h0, inv0, m0, models, elems, e, n, k);
    UsedMarginClosed(m0, elems, k);
    var stop := FirstMarginIndex(elems);
    if m0.None? && stop < n {
      var p := PassAt(h0, inv0, m0, models, elems, e, n);
      IndexOfDistinctNode(elems, stop);
      PatchClosed(p.heights, models, elems, elems[stop].node, MarginAfter(m0, elems));
      PrefixIdsDistinct(models, stop, k);
    }
  }

  /** The flush leaves the height of an id outside the queue alone. */
  lemma FlushHeightOther(h0: map<Id, int>, inv0: set<Id>, models: seq<Model>, elems: seq<Element>, m0: Option<int>, e: int, id: Id)
    requires |models| == |elems| && DistinctIds(models) && DistinctNodes(elems) && id !in PrefixIds(models, |models|)
    ensures var r := Flush(h0, inv0, models, elems, m0, e);
            (id in r.heights <==> id in h0) && (id in h0 ==> r.heights[id] == h0[id])
  {
    var n := |models|;
    FlushShape(h0, inv0, models, elems, m0, e);
    PassHeightsOthers(h0, inv0, m0, models, elems, e, n, id);
    var stop := FirstMarginIndex(elems);
    if m0.None? && stop < n {
      var p := PassAt(h0, inv0, m0, models, elems, e, n);
      IndexOfDistinctNode(elems, stop);
      PatchClosed(p.heights, models, elems, elems[stop].node, MarginAfter(m0, elems));
      assert id !in PrefixIds(models, stop);
    }
  }

  /** A flush (ids and elements distinct) stores for every queued model its
      element's height plus the margin in force after the flush, also for
      the entries read before the margin was found, and leaves every other
      stored height alone. */
  lemma FlushHeights(h0: map<Id, int>, inv0: set<Id>, models: seq<Model>, elems: seq<Element>, m0: Option<int>, e: int)
    requires |models| == |elems| && DistinctIds(models) && DistinctNodes(elems)
    ensures var r := Flush(h0, inv0, models, elems, m0, e);
            && (forall k :: 0 <= k < |models| ==>
                  models[k].id in r.heights && r.heights[models[k].id] == r.margin + elems[k].height)
            && (forall id :: id !in PrefixIds(models, |models|) ==>
                  (id in r.heights <==> id in h0) && (id in h0 ==> r.heights[id] == h0[id]))
  {
    forall k | 0 <= k < |models|
      ensures var r := Flush(h0, inv0, models, elems, m0, e);
              models[k].id in r.heights && r.heights[models[k].id] == r.margin + elems[k].height
    {
      FlushHeightAt(h0, inv0, models, elems, m0, e, k);
    }
    forall id | id !in PrefixIds(models, |models|)
      ensures var r := Flush(h0, inv0, models, elems, m0, e);
              (id in r.heights <==> id in h0) && (id in h0 ==> r.heights[id] == h0[id])
    {
      FlushHeightOther(h0, inv0, models, elems, m0, e, id);
    }
  }

  /** The flush's delta for entry `k`: its stored height minus the height
      assumed before the flush. */
  lemma FlushDeltaAt(h0: map<Id, int>, inv0: set<Id>, models: seq<Model>, elems: seq<Element>, m0: Option<int>, e: int, k: nat)
    requires |models| == |elems| && DistinctIds(models) && DistinctNodes(elems) && k < |models|
    ensures var r := Flush(h0, inv0, models, elems, m0, e);
            models[k].id in r.measurement.measuredItemsDelta
            && r.measurement.measuredItemsDelta[models[k].id] == r.margin + elems[k].height - Expected(h0, models[k].id, e)
  {
    var n := |models|;
    FlushShape(h0, inv0, models, elems, m0, e);
    PassDeltas(h0, inv0, m0, models, elems, e, n);
    UsedMarginClosed(m0, elems, k);
    var stop := FirstMarginIndex(elems);
    if m0.None? && stop < n {
      var p := PassAt(h0, inv0, m0, models, elems, e, n);
      IndexOfDistinctNode(elems, stop);
      PatchClosed(p.deltas, models, elems, elems[stop].node, MarginAfter(m0, elems));
      PrefixIdsDistinct(models, stop, k);
    }
  }

  /** The per-id deltas of a flush (ids and elements distinct): exactly the
      queued ids, each the stored height minus the height assumed before. */
  lemma FlushDeltas(h0: map<Id, int>, inv0: set<Id>, models: seq<Model>, elems: seq<Element>, m0: Option<int>, e: int)
    requires |models| == |elems| && DistinctIds(models) && DistinctNodes(elems)
    ensures var r := Flush(h0, inv0, models, elems, m0, e);
            && r.measurement.measuredItemsDelta.Keys == PrefixIds(models, |models|)
            && (forall k :: 0 <= k < |models| ==>
                  r.measurement.measuredItemsDelta[models[k].id] == r.margin + elems[k].height - Expected(h0, models[k].id, e))
  {
    var n := |models|;
    assert Flush(h0, inv0, models, elems, m0, e).measurement.measuredItemsDelta.Keys == PrefixIds(models, n) by {
      FlushShape(h0, inv0, models, elems, m0, e);
      PassDeltaKeys(h0, inv0, m0, models, elems, e, n);
      var stop := FirstMarginIndex(elems);
      if m0.None? && stop < n {
        var p := PassAt(h0, inv0, m0, models, elems, e, n);
        PassDeltas(h0, inv0, m0, models, elems, e, n);
        PatchClosed(p.deltas, models, elems, elems[stop].node, MarginAfter(m0, elems));
      }
    }
    forall k | 0 <= k < n
      ensures var r := Flush(h0, inv0, models, elems, m0, e);
              r.measurement.measuredItemsDelta[models[k].id] == r.margin + elems[k].height - Expected(h0, models[k].id, e)
    {
      FlushDeltaAt(h0, inv0, models, elems, m0, e, k);
    }
  }

  /** The measured ids leave the invalid set; the margin is the one defined
      before the flush, else the first nonzero margin-top in the queue,
      else 0. */
  lemma FlushInvalid(h0: map<Id, int>, inv0: set<Id>, models: seq<Model>, elems: seq<Element>, m0: Option<int>, e: int)
    requires |models| == |elems|
    ensures var r := Flush(h0, inv0, models, elems, m0, e);
            && r.invalid == inv0 - PrefixIds(models, |models|)
            && r.margin == MarginAfter(m0, elems)
  {
    FlushShape(h0, inv0, models, elems, m0, e);
    PassInvalid(h0, inv0, m0, models, elems, e, |models|);
  }

  /** The aggregate delta is the sum of the per-id deltas as they were
      before the margin patch: the patch leaves it short of the reported
      per-id deltas by the margin once for every patched entry. */
  lemma FlushCompound(h0: map<Id, int>, inv0: set<Id>, models: seq<Model>, elems: seq<Element>, m0: Option<int>, e: int)
    requires |models| == |elems| && DistinctIds(models) && DistinctNodes(elems)
    ensures var r := Flush(h0, inv0, models, elems, m0, e);
            r.measurement.compoundMeasuredHeightDelta
              == DeltaSum(r.measurement.measuredItemsDelta, models) - PatchedCount(m0, elems) * r.margin
  {
    var n := |models|;
    assert models[..n] == models;
    FlushShape(h0, inv0, models, elems, m0, e);
    PassCompound(h0, inv0, m0, models, elems, e, n);
    var p := PassAt(h0, inv0, m0, models, elems, e, n);
    var stop := FirstMarginIndex(elems);
    if m0.None? && stop < n {
      var node := elems[stop].node;
      var margin := elems[stop].marginTop;
      IndexOfDistinctNode(elems, stop);
      PatchClosed(p.deltas, models, elems, node, margin);
      var d' := Patch(p.deltas, models, elems, node, margin);
      forall k | 0 <= k < n ensures d'[models[k].id] == p.deltas[models[k].id] + (if k < stop then margin else 0) {
        PrefixIdsDistinct(models, stop, k);
      }
      DeltaSumShift(p.deltas, d', models, stop, margin, n);
    }
  }

  /** Once the margin is defined, a flush reads no margin-top: elements that
      differ only in their margins give the same flush. */
  /** The queue is keyed by model object while heights and deltas are keyed
      by id, so two objects with one id can both be queued. Then the id's
      delta only reflects the later entry, measured against the earlier
      entry's height, while the compound counts both entries: here the
      delta is 10 but the compound is (10 - 35) + (20 - 10) = -15. */
  lemma SharedIdFlush()
    ensures var models := [Model("a", 1), Model("a", 2)];
            var r := Flush(map[], {}, models, [Element(1, 10, 0), Element(2, 20, 0)], Some(0), 35);
            && r.heights == map["a" := 20]
            && r.measurement.measuredItemsDelta == map["a" := 10]
            && r.measurement.compoundMeasuredHeightDelta == -15
            && DeltaSum(r.measurement.measuredItemsDelta, models) == 20
  {
    var models := [Model("a", 1), Model("a", 2)];
    var elems := [Element(1, 10, 0), Element(2, 20, 0)];
    var p0 := Pass(map[], {}, map[], 0, MarginScan(Some(0), 0, None));
    assert models[..1] == [models[0]] && elems[..1] == [elems[0]];
    assert [models[0]][..0] == [] && [elems[0]][..0] == [];
    assert FlushPass(p0, [], [], 35) == p0;
    var p1 := FlushPass(p0, [models[0]], [elems[0]], 35);
    assert p1 == Step(p0, models[0], elems[0], 35);
    assert p1.heights == map["a" := 10] && p1.compound == -25;
    var p2 := FlushPass(p0, models, elems, 35);
    assert p2 == Step(p1, models[1], elems[1], 35);
    assert p2.deltas == map["a" := 10] && p2.heights == map["a" := 20] && p2.compound == -15;
    assert models[..|models| - 1] == [models[0]];
    assert DeltaSum(p2.deltas, models) == DeltaSum(p2.deltas, [models[0]]) + 10;
    assert [models[0]][..0] == [];
  }

  lemma StepIgnoresMargin(p: Pass, model: Model, elem: Element, elem': Element, e: int)
    requires p.scan.margin.Some? && elem'.height == elem.height
    ensures Step(p, model, elem, e) == Step(p, model, elem', e)
    ensures Step(p, model, elem, e).scan == p.scan
  {
  }

  lemma {:induction false} PassIgnoresMargins(h0: map<Id, int>, inv0: set<Id>, m: int,
                                              models: seq<Model>, elems: seq<Element>, elems': seq<Element>, e: int, i: nat)
    requires |models| == |elems| == |elems'| && i <= |models|
    requires forall k :: 0 <= k < |elems| ==> elems'[k].height == elems[k].height
    ensures PassAt(h0, inv0, Some(m), models, elems, e, i) == PassAt(h0, inv0, Some(m), models, elems', e, i)
    ensures PassAt(h0, inv0, Some(m), models, elems, e, i).scan == MarginScan(Some(m), 0, None)
  {
    if i > 0 {
      PassIgnoresMargins(h0, inv0, m, models, elems, elems', e, i - 1);
      PassAtStep(h0, inv0, Some(m), models, elems, e, i);
      PassAtStep(h0, inv0, Some(m), models, elems', e, i);
      StepIgnoresMargin(PassAt(h0, inv0, Some(m), models, elems, e, i - 1), models[i - 1], elems[i - 1], elems'[i - 1], e);
    }
  }
  lemma FlushIgnoresMargins(h0: map<Id, int>, inv0: set<Id>, m: int,
                            models: seq<Model>, elems: seq<Element>, elems': seq<Element>, e: int)
    requires |models| == |elems| == |elems'|
    requires forall k :: 0 <= k < |elems| ==> elems'[k].height == elems[k].height
    ensures Flush(h0, inv0, models, elems, Some(m), e) == Flush(h0, inv0, models, elems', Some(m), e)
    ensures Flush(h0, inv0, models, elems, Some(m), e).margin == m
  {
    var n := |models|;
    assert models[..n] == models && elems[..n] == elems && elems'[..n] == elems';
    PassIgnoresMargins(h0, inv0, m, models, elems, elems', e, n);
  }

  /* ---------------------------------------------------------------------- */
  /* The measurer                                                            */
  /* ---------------------------------------------------------------------- */

  /** The elements of the queue, in queue order. */
  function QueueElems(q: OMap<Model, Element>): (r: seq<Element>)
    requires q.Valid()
  {
    seq(|q.keys|, i requires 0 <= i < |q.keys| => q.values[q.keys[i]])
  }

  /** The closure state of `createItemsMeasusrer`. A requested animation
      frame is the flag `framePending` (`measureAnimationFrameID > -1`);
      the frame's callback is the call `Measure`. Every value handed to
      `onMeasure` is appended to `measurements`. */
  class ItemsMeasurer {
    const expectedItemHeight: int
    var invalidItemHeights: set<Id>
    var itemsHeights: map<Id, int>
    var itemsToMeasure: OMap<Model, Element>
    var itemMarginTop: Option<int>
    var framePending: bool
    var measurements: seq<Measurement>

    /** The queue is a proper map, and a non-empty queue always has a frame
        on its way to flush it. */
    ghost predicate Valid()
      reads this
    {
      itemsToMeasure.Valid() && (itemsToMeasure.Size() > 0 ==> framePending)
    }

    constructor (expectedItemHeight: int)
      ensures Valid()
      ensures this.expectedItemHeight == expectedItemHeight
      ensures invalidItemHeights == {} && itemsHeights == map[] && itemsToMeasure.Size() == 0
      ensures itemMarginTop == None && !framePending && measurements == []
    {
      this.expectedItemHeight := expectedItemHeight;
      invalidItemHeights := {};
      itemsHeights := map[];
      itemsToMeasure := EmptyMap();
      itemMarginTop := None;
      framePending := false;
      measurements := [];
    }

    /** `has`: a height is stored, outdated or not. */
    predicate Has(id: Id)
      reads this
    {
      id in itemsHeights
    }

    /** `get`. */
    function Get(id: Id): Option<int>
      reads this
    {
      if id in itemsHeights then Some(itemsHeights[id]) else None
    }

    /** `isRequiredMesure`: the height is outdated or missing. */
    predicate IsRequiredMesure(id: Id)
      reads this
    {
      id in invalidItemHeights || id !in itemsHeights
    }

    /** `delete`: drops the height and the outdated mark; tells whether a
        height was stored. */
    method Delete(id: Id) returns (deleted: bool)
      modifies this
      ensures deleted == old(Has(id))
      ensures !Has(id) && IsRequiredMesure(id)
      ensures forall other :: other != id ==> Get(other) == old(Get(other)) && (IsRequiredMesure(other) == old(IsRequiredMesure(other)))
      ensures itemsHeights == old(itemsHeights) - {id} && invalidItemHeights == old(invalidItemHeights) - {id}
      ensures itemsToMeasure == old(itemsToMeasure) && itemMarginTop == old(itemMarginTop)
      ensures framePending == old(framePending) && measurements == old(measurements)
    {
      invalidItemHeights := invalidItemHeights - {id};
      deleted := id in itemsHeights;
      itemsHeights := itemsHeights - {id};
    }

    /** `invalidate`: marks the height outdated but keeps it. */
    method Invalidate(id: Id)
      modifies this
      ensures Has(id) == old(Has(id)) && Get(id) == old(Get(id)) && IsRequiredMesure(id)
      ensures invalidItemHeights == old(invalidItemHeights) + {id}
      ensures itemsHeights == old(itemsHeights) && itemsToMeasure == old(itemsToMeasure)
      ensures itemMarginTop == old(itemMarginTop) && framePending == old(framePending) && measurements == old(measurements)
    {
      invalidItemHeights := invalidItemHeights + {id};
    }

    /** `scheduleMesure`: queues the element under its model (re-queueing a
        model replaces its element and keeps its place), then, in the
        microtask, requests a frame unless the queue is empty or a frame is
        already pending. */
    method ScheduleMesure(item: Model, el: Element)
      requires Valid()
      modifies this
      ensures Valid()
      ensures itemsToMeasure == old(itemsToMeasure).Set(item, el)
      ensures itemsToMeasure.Get(item) == Some(el) && itemsToMeasure.Size() <= old(itemsToMeasure.Size()) + 1
      ensures framePending
      ensures itemsHeights == old(itemsHeights) && invalidItemHeights == old(invalidItemHeights)
      ensures itemMarginTop == old(itemMarginTop) && measurements == old(measurements)
    {
      itemsToMeasure := itemsToMeasure.Set(item, el);
      if !(itemsToMeasure.Size() == 0 || framePending) {
        framePending := true;
      }
    }

    /** `measure`: the frame callback. Flushes the queue, empties it, clears
        the frame flag and hands one measurement to `onMeasure`. */
    method Measure()
      requires Valid()
      modifies this
      ensures Valid()
      ensures var r := Flush(old(itemsHeights), old(invalidItemHeights), old(itemsToMeasure.keys),
                             QueueElems(old(itemsToMeasure)), old(itemMarginTop), expectedItemHeight);
              && itemsHeights == r.heights && invalidItemHeights == r.invalid
              && itemMarginTop == Some(r.margin)
              && measurements == old(measurements) + [r.measurement]
      ensures itemsToMeasure.Size() == 0 && !framePending
    {
      var models := itemsToMeasure.keys;
      var elems := QueueElems(itemsToMeasure);
      ghost var h0, inv0, m0 := itemsHeights, invalidItemHeights, itemMarginTop;
      var deltas, compound, newItemMarginValue, firstWithMargin := MeasureEach(models, elems);
      FlushPassKeys(h0, inv0, m0, models, elems, expectedItemHeight);
      if itemMarginTop.None? || itemMarginTop.value == 0 {
        itemMarginTop := Some(0);
      }
      if newItemMarginValue != 0 && firstWithMargin.Some? {
        deltas := AddMarginBefore(models, elems, firstWithMargin.value, itemMarginTop.value, deltas);
      }
      framePending := false;
      itemsToMeasure := EmptyMap();
      measurements := measurements + [Measurement(deltas, compound)];
    }

    /** The `forEach` of `measure`: stores each queued item's height, reads
        margins until one is found, and collects the deltas. */
    method MeasureEach(models: seq<Model>, elems: seq<Element>)
      returns (deltas: map<Id, int>, compound: int, newItemMarginValue: int, firstWithMargin: Option<nat>)
      requires |models| == |elems|
      modifies this
      ensures Pass(itemsHeights, invalidItemHeights, deltas, compound, MarginScan(itemMarginTop, newItemMarginValue, firstWithMargin))
              == FlushPass(Pass(old(itemsHeights), old(invalidItemHeights), map[], 0, MarginScan(old(itemMarginTop), 0, None)),
                           models, elems, expectedItemHeight)
      ensures itemsToMeasure == old(itemsToMeasure) && framePending == old(framePending) && measurements == old(measurements)
    {
      ghost var h0, inv0, m0 := itemsHeights, invalidItemHeights, itemMarginTop;
      deltas, compound := map[], 0;
      newItemMarginValue, firstWithMargin := 0, None;
      for i := 0 to |models|
        invariant Pass(itemsHeights, invalidItemHeights, deltas, compound, MarginScan(itemMarginTop, newItemMarginValue, firstWithMargin))
                  == PassAt(h0, inv0, m0, models, elems, expectedItemHeight, i)
        invariant itemsToMeasure == old(itemsToMeasure) && framePending == old(framePending) && measurements == old(measurements)
      {
        PassAtStep(h0, inv0, m0, models, elems, expectedItemHeight, i + 1);
        deltas, compound, newItemMarginValue, firstWithMargin :=
          MeasureOne(models[i], elems[i], deltas, compound, newItemMarginValue, firstWithMargin);
      }
      assert models[..|models|] == models && elems[..|elems|] == elems;
    }

    /** The callback of the `forEach` of `measure`, for one queue entry. */
    method MeasureOne(model: Model, elem: Element, deltas: map<Id, int>, compound: int,
                      newItemMarginValue: int, firstWithMargin: Option<nat>)
      returns (deltas': map<Id, int>, compound': int, newItemMarginValue': int, firstWithMargin': Option<nat>)
      modifies this
      ensures Pass(itemsHeights, invalidItemHeights, deltas', compound', MarginScan(itemMarginTop, newItemMarginValue', firstWithMargin'))
              == Step(Pass(old(itemsHeights), old(invalidItemHeights), deltas, compound,
                           MarginScan(old(itemMarginTop), newItemMarginValue, firstWithMargin)),
                      model, elem, expectedItemHeight)
      ensures itemsToMeasure == old(itemsToMeasure) && framePending == old(framePending) && measurements == old(measurements)
    {
      deltas', compound', newItemMarginValue', firstWithMargin' := deltas, compound, newItemMarginValue, firstWithMargin;
      var expected := if model.id in itemsHeights && itemsHeights[model.id] != 0 then itemsHeights[model.id] else expectedItemHeight;
      var height := elem.height;
      if itemMarginTop.None? {
        newItemMarginValue' := elem.marginTop;
        if newItemMarginValue' != 0 {
          itemMarginTop := Some(newItemMarginValue');
          firstWithMargin' := Some(elem.node);
        }
      }
      var actual := (if itemMarginTop.Some? then itemMarginTop.value else 0) + height;
      compound' := compound' + (actual - expected);
      itemsHeights := itemsHeights[model.id := actual];
      deltas' := deltas'[model.id := actual - expected];
      if model.id in invalidItemHeights {
        invalidItemHeights := invalidItemHeights - {model.id};
      }
    }

    /** The margin patch loop of `measure`: walks the queue until the
        element `node` and adds `margin` to each stored height and delta on
        the way. */
    method AddMarginBefore(models: seq<Model>, elems: seq<Element>, node: nat, margin: int, deltas: map<Id, int>)
      returns (patched: map<Id, int>)
      requires |models| == |elems|
      requires forall k :: 0 <= k < |models| ==> models[k].id in itemsHeights && models[k].id in deltas
      modifies this
      ensures itemsHeights == Patch(old(itemsHeights), models, elems, node, margin)
      ensures patched == Patch(deltas, models, elems, node, margin)
      ensures invalidItemHeights == old(invalidItemHeights) && itemMarginTop == old(itemMarginTop)
      ensures itemsToMeasure == old(itemsToMeasure) && framePending == old(framePending) && measurements == old(measurements)
    {
      patched := deltas;
      var i := 0;
      while i < |models|
        invariant 0 <= i <= |models|
        invariant invalidItemHeights == old(invalidItemHeights) && itemMarginTop == old(itemMarginTop)
        invariant itemsToMeasure == old(itemsToMeasure) && framePending == old(framePending) && measurements == old(measurements)
        invariant forall k :: 0 <= k < |models| ==> models[k].id in itemsHeights && models[k].id in patched
        invariant Patch(itemsHeights, models[i..], elems[i..], node, margin) == Patch(old(itemsHeights), models, elems, node, margin)
        invariant Patch(patched, models[i..], elems[i..], node, margin) == Patch(deltas, models, elems, node, margin)
      {
        if elems[i].node == node {
          break;
        }
        var id := models[i].id;
        itemsHeights := itemsHeights[id := itemsHeights[id] + margin];
        patched := patched[id := patched[id] + margin];
        assert models[i..][1..] == models[i + 1..] && elems[i..][1..] == elems[i + 1..];
        i := i + 1;
      }
    }
  }
}
