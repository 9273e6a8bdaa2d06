/** The original combined engine of src/create-virtual.tsx: one closure that
    keeps the measured heights of the models (keyed by model object), the
    tracked scroll values, a cache of rendered entries keyed by model object,
    and a queue of elements to measure. Every recomputation of the `items`
    memo walks all models, renders those overlapping the buffered viewport,
    reuses cached entries, disposes the ones no longer rendered and sets the
    spacer height and the wrapper top. */
module VirtualList {
  import opened Common
  import Measure
  import Scroll

  /* ---------------------------------------------------------------------- */
  /* Item heights                                                            */
  /* ---------------------------------------------------------------------- */

  /** `params.expectedItemHeight || 35`: an absent or zero expected height
      falls back to 35, so the result is never 0. */
  function ExpectedOr35(expected: Option<int>): (r: int)
    ensures r != 0
    ensures expected.Some? && expected.value != 0 ==> r == expected.value
  {
    if expected.Some? && expected.value != 0 then expected.value else 35
  }

  /** `params.renderBeyondFold || 0`. */
  function OffsetOr0(renderBeyondFold: Option<int>): int {
    if renderBeyondFold.Some? then renderBeyondFold.value else 0
  }

  /** `getItemHeight(model)`: the fixed `itemHeight` whenever one is given
      (0 included, since the test is `typeof itemHeight === 'number'`),
      otherwise the measured height of the model object, otherwise the
      expected height. */
  function ItemHeight(itemHeight: Option<int>, heights: map<Model, int>, expected: int, m: Model): int {
    if itemHeight.Some? then itemHeight.value
    else if m in heights then heights[m]
    else expected
  }

  /** The height of every model, in model order. */
  function Heights(itemHeight: Option<int>, heights: map<Model, int>, expected: int, models: seq<Model>): (hs: seq<int>)
  {
    seq(|models|, i requires 0 <= i < |models| => ItemHeight(itemHeight, heights, expected, models[i]))
  }

  /** With a fixed item height the list is that height times the number of
      models, whatever has been measured; with no fixed height and nothing
      measured it is the expected height times the number of models. */
  lemma TotalHeightUniform(itemHeight: Option<int>, heights: map<Model, int>, expected: int, models: seq<Model>)
    requires itemHeight.Some? || forall i :: 0 <= i < |models| ==> models[i] !in heights
    ensures Sum(Heights(itemHeight, heights, expected, models))
            == |models| * (if itemHeight.Some? then itemHeight.value else expected)
  {
    SumConst(Heights(itemHeight, heights, expected, models), if itemHeight.Some? then itemHeight.value else expected);
  }

  /* ---------------------------------------------------------------------- */
  /* Windowing                                                               */
  /* ---------------------------------------------------------------------- */

  /** The compounded height of the items before item `i`. */
  function Top(hs: seq<int>, i: nat): int
    requires i <= |hs|
  {
    Sum(hs[..i])
  }

  /** Item `i` is rendered: `[top, top + height)` overlaps `[lo, hi)`, where
      the cycle passes `lo = scrollTop - offset` and
      `hi = scrollTop + viewportHeight + offset`. */
  predicate RenderedAt(hs: seq<int>, i: nat, lo: int, hi: int)
    requires i < |hs|
  {
    ShouldRender(Top(hs, i), Top(hs, i) + hs[i], lo, hi)
  }

  /** The positions of the rendered items among the first `n`, in model
      order: exactly those that pass the overlap test. */
  function Positions(hs: seq<int>, lo: int, hi: int, n: nat): (p: seq<nat>)
    requires n <= |hs|
    ensures forall k :: 0 <= k < |p| ==> p[k] < n
    ensures forall k, l :: 0 <= k < l < |p| ==> p[k] < p[l]
    ensures forall i :: 0 <= i < n ==> (i in p <==> RenderedAt(hs, i, lo, hi))
  {
    if n == 0 then []
    else
      var p := Positions(hs, lo, hi, n - 1);
      if RenderedAt(hs, n - 1, lo, hi) then p + [n - 1] else p
  }

  /** Items with non-negative heights are rendered in one contiguous run:
      the rendered positions follow each other without gaps. */
  lemma RenderedContiguous(hs: seq<int>, lo: int, hi: int)
    requires forall i :: 0 <= i < |hs| ==> hs[i] >= 0
    ensures var p := Positions(hs, lo, hi, |hs|);
            forall k :: 0 <= k < |p| - 1 ==> p[k + 1] == p[k] + 1
  {
    var p := Positions(hs, lo, hi, |hs|);
    forall k | 0 <= k < |p| - 1
      ensures p[k + 1] == p[k] + 1
    {
      var j := p[k] + 1;
      assert p[k] in p && p[k + 1] in p;
      NextRendered(hs, lo, hi, p[k], p[k + 1]);
      assert j < p[k + 1] ==> j in p;
      assert forall l :: 0 <= l < |p| ==> p[l] <= p[k] || p[k + 1] <= p[l];
    }
  }

  /** Between two rendered items with non-negative heights, the item right
      after the first one is rendered too. */
  lemma NextRendered(hs: seq<int>, lo: int, hi: int, a: nat, b: nat)
    requires forall i :: 0 <= i < |hs| ==> hs[i] >= 0
    requires a < b < |hs| && RenderedAt(hs, a, lo, hi) && RenderedAt(hs, b, lo, hi)
    ensures a + 1 < b ==> RenderedAt(hs, a + 1, lo, hi)
  {
    var j := a + 1;
    assert hs[..j][..j - 1] == hs[..j - 1];
    assert Top(hs, j) == Top(hs, a) + hs[a];
    SumPrefixMonotone(hs, j, b);
  }

  /** One model of the pass: its top is the compounded height so far, it
      joins the rendered positions when it overlaps `[lo, hi)`, and then it
      sets the wrapper top unless an earlier item did. */
  lemma WindowStep(hs: seq<int>, lo: int, hi: int, i: nat)
    requires i < |hs|
    ensures Top(hs, i + 1) == Top(hs, i) + hs[i]
    ensures var p := Positions(hs, lo, hi, i);
            && Positions(hs, lo, hi, i + 1) == (if RenderedAt(hs, i, lo, hi) then p + [i] else p)
            && (RenderedAt(hs, i, lo, hi) ==>
                  WrapperTop(hs, p + [i]) == if WrapperTop(hs, p) < 0 then Top(hs, i) else WrapperTop(hs, p))
  {
    assert hs[..i + 1] == hs[..i] + [hs[i]];
    var p := Positions(hs, lo, hi, i);
    assert (p + [i])[..|p|] == p;
  }

  /** `topRenderedItem` after the rendered items `p`: the top of the first
      of them, unless that top is negative, in which case the next rendered
      item takes over (the test is `topRenderedItem < 0`). -1 when nothing
      is rendered. */
  function WrapperTop(hs: seq<int>, p: seq<nat>): int
    requires forall k :: 0 <= k < |p| ==> p[k] < |hs|
  {
    if p == [] then -1
    else
      var t := WrapperTop(hs, p[..|p| - 1]);
      if t < 0 then Top(hs, p[|p| - 1]) else t
  }

  /** With non-negative heights the wrapper top is the compounded top of the
      first rendered item, or -1 when none is rendered. */
  lemma {:induction false} WrapperTopFirst(hs: seq<int>, p: seq<nat>)
    requires forall i :: 0 <= i < |hs| ==> hs[i] >= 0
    requires forall k :: 0 <= k < |p| ==> p[k] < |hs|
    ensures WrapperTop(hs, p) == if p == [] then -1 else Top(hs, p[0])
  {
    if p != [] {
      var q := p[..|p| - 1];
      WrapperTopFirst(hs, q);
      SumPrefixMonotone(hs, 0, p[0]);
      assert hs[..0] == [];
      if q != [] {
        assert q[0] == p[0];
        SumPrefixMonotone(hs, 0, q[0]);
      } else {
        SumPrefixMonotone(hs, 0, p[|p| - 1]);
        assert p[|p| - 1] == p[0];
      }
    }
  }

  /** The rendered models, in model order. */
  function ModelsAt(models: seq<Model>, p: seq<nat>): (r: seq<Model>)
    requires forall k :: 0 <= k < |p| ==> p[k] < |models|
  {
    seq(|p|, k requires 0 <= k < |p| => models[p[k]])
  }

  /** Distinct models give distinct rendered models. */
  lemma RenderedDistinct(models: seq<Model>, p: seq<nat>)
    requires Distinct(models)
    requires forall k :: 0 <= k < |p| ==> p[k] < |models|
    requires forall k, l :: 0 <= k < l < |p| ==> p[k] < p[l]
    ensures Distinct(ModelsAt(models, p))
  {
    var r := ModelsAt(models, p);
    forall k, l | 0 <= k < l < |r|
      ensures Differ(r, k, l)
    {
      DistinctAt(models, p[k], p[l]);
    }
  }

  /* ---------------------------------------------------------------------- */
  /* The cache cycle                                                         */
  /* ---------------------------------------------------------------------- */

  /** A cached entry: the model it was rendered for, the node identity of
      its element, and how many times its root's disposer has run. */
  class CachedItem {
    const model: Model
    const element: nat
    var disposed: nat

    constructor (model: Model, element: nat)
      ensures this.model == model && this.element == element && disposed == 0
    {
      this.model := model;
      this.element := element;
      disposed := 0;
    }

    /** The disposer of the entry's root. */
    method Dispose()
      modifies this
      ensures disposed == old(disposed) + 1
    {
      disposed := disposed + 1;
    }
  }

  /** The disposal loop of the `items` memo: the disposer of every entry
      left in the previous cache runs once. The loop deletes each key as it
      goes; the memo then replaces the whole cache, so the deletions are
      left to the caller. */
  method DisposeAll(left: map<Model, CachedItem>)
    requires Keyed(left)
    modifies left.Values
    ensures forall e :: e in left.Values ==> e.disposed == old(e.disposed) + 1
  {
    var rest := left;
    while rest != map[]
      invariant forall m :: m in rest ==> m in left && rest[m] == left[m]
      invariant forall m :: m in left ==> left[m].disposed == old(left[m].disposed) + if m in rest then 0 else 1
      decreases |rest|
    {
      var key :| key in rest;
      var entry := rest[key];
      assert forall m :: m in left && m != key ==> left[m].model != entry.model;
      entry.Dispose();
      rest := rest - {key};
    }
    forall e | e in left.Values
      ensures e.disposed == old(e.disposed) + 1
    {
      var m :| m in left && left[m] == e;
    }
  }

  /** The end of the `items` memo: of the previous cache `c0`, the entries
      of the models that were not rendered again (`left`) are disposed
      exactly once, the entries taken over not at all. */
  method DisposeLeftover(ghost c0: map<Model, CachedItem>, ghost r: seq<Model>, left: map<Model, CachedItem>)
    requires Keyed(c0) && left == c0 - Members(r)
    modifies left.Values
    ensures forall m :: m in c0 ==> c0[m].disposed == old(c0[m].disposed) + if m in r then 0 else 1
  {
    forall m | m in c0 && m in r
      ensures c0[m] !in left.Values
    {
      assert forall m' :: m' in left ==> left[m'].model == m' != m;
    }
    DisposeAll(left);
    forall m | m in c0
      ensures c0[m].disposed == old(c0[m].disposed) + if m in r then 0 else 1
    {
      if m !in r {
        assert c0[m] == left[m];
      }
    }
  }

  /** Every entry is stored under its own model, so two keys never share
      an entry. */
  ghost predicate Keyed(c: map<Model, CachedItem>) {
    forall m :: m in c ==> c[m].model == m
  }

  /** The models occurring in `r`. */
  ghost function Members(r: seq<Model>): set<Model> {
    set m | m in r
  }

  /** The `k`-th rendered item takes over its entry from the previous cache:
      its model is in that cache and did not occur among the rendered items
      before it (the first occurrence deletes it from the previous cache). */
  ghost predicate Reuses(c0: map<Model, CachedItem>, r: seq<Model>, k: nat)
    requires k < |r|
  {
    r[k] in c0 && r[k] !in r[..k]
  }

  /** The `k`-th rendered item is the last one of its model, so the new
      cache keeps its entry. */
  ghost predicate IsLast(r: seq<Model>, k: nat)
    requires k < |r|
  {
    r[k] !in r[k + 1..]
  }

  /** The models whose new element the ref callback queues for measuring:
      created in this cycle and never measured. */
  ghost function Queued(c0: map<Model, CachedItem>, r: seq<Model>, measured: map<Model, int>): set<Model> {
    set k | 0 <= k < |r| && !Reuses(c0, r, k) && r[k] !in measured :: r[k]
  }

  /** When the rendered models are distinct and are exactly the models of
      the previous cache, every rendered item takes over its entry, keeps it
      in the new cache, and no entry of the previous cache is left over. */
  lemma SteadyCycle(c0: map<Model, CachedItem>, r: seq<Model>, measured: map<Model, int>)
    requires Distinct(r)
    requires forall m :: m in c0 <==> m in r
    ensures forall k :: 0 <= k < |r| ==> Reuses(c0, r, k) && IsLast(r, k)
    ensures Queued(c0, r, measured) == {}
  {
    forall k | 0 <= k < |r|
      ensures Reuses(c0, r, k) && IsLast(r, k)
    {
      forall j | 0 <= j < |r| && j != k
        ensures r[j] != r[k]
      {
        DistinctAt(r, j, k);
      }
    }
  }

  /** What appending the rendered item `x` does to the cache predicates of
      the items rendered before it. */
  lemma SnocFacts(c0: map<Model, CachedItem>, r: seq<Model>, x: Model, measured: map<Model, int>)
    ensures var r' := r + [x];
            && (forall k :: 0 <= k < |r| ==> (Reuses(c0, r', k) <==> Reuses(c0, r, k)))
            && (forall k :: 0 <= k < |r| ==> (IsLast(r', k) <==> IsLast(r, k) && r[k] != x))
            && IsLast(r', |r|)
            && (Reuses(c0, r', |r|) <==> x in c0 && x !in r)
            && Queued(c0, r', measured) == Queued(c0, r, measured) + (if !Reuses(c0, r', |r|) && x !in measured then {x} else {})
  {
    var r' := r + [x];
    forall k | 0 <= k < |r|
      ensures r'[..k] == r[..k] && r'[k + 1..] == r[k + 1..] + [x]
    {
    }
    assert r'[..|r|] == r;
    assert r'[|r| + 1..] == [];
    var extra := if !Reuses(c0, r', |r|) && x !in measured then {x} else {};
    forall m | m in Queued(c0, r', measured)
      ensures m in Queued(c0, r, measured) + extra
    {
      var k :| 0 <= k < |r'| && !Reuses(c0, r', k) && r'[k] !in measured && r'[k] == m;
      if k < |r| {
        assert !Reuses(c0, r, k) && r[k] !in measured;
      }
    }
    forall m | m in Queued(c0, r, measured)
      ensures m in Queued(c0, r', measured)
    {
      var k :| 0 <= k < |r| && !Reuses(c0, r, k) && r[k] !in measured && r[k] == m;
      assert !Reuses(c0, r', k) && r'[k] !in measured && r'[k] == m;
    }
  }

  /** The nodes collected for the rendered items `r` (at positions `p`):
      the element of the entry taken over, or the element `getElement`
      produced for a new entry. */
  ghost predicate NodesOf(items: seq<nat>, c0: map<Model, CachedItem>, r: seq<Model>, p: seq<nat>, elems: seq<Measure.Element>)
    requires |r| == |p| && forall k :: 0 <= k < |p| ==> p[k] < |elems|
  {
    && |items| == |p|
    && forall k :: 0 <= k < |p| ==> items[k] == if Reuses(c0, r, k) then c0[r[k]].element else elems[p[k]].node
  }

  /** The entry kept for the `k`-th rendered item, when it is the last of
      its model: its element is the item's node, and it is the entry of the
      previous cache when the item took that over, a new one otherwise. */
  ghost predicate Kept(e: CachedItem, node: nat, c0: map<Model, CachedItem>, r: seq<Model>, k: nat)
    requires k < |r|
  {
    && e.element == node
    && (Reuses(c0, r, k) ==> e == c0[r[k]])
    && (!Reuses(c0, r, k) ==> e !in c0.Values)
  }

  /** The current cache after the rendered items `r`: keyed by exactly the
      rendered models, holding for each the entry of its last item. */
  ghost predicate NewCache(current: map<Model, CachedItem>, items: seq<nat>, c0: map<Model, CachedItem>, r: seq<Model>)
    requires |items| == |r|
  {
    && Keyed(current)
    && (forall m :: m in current <==> m in r)
    && forall k :: 0 <= k < |r| && IsLast(r, k) ==> Kept(current[r[k]], items[k], c0, r, k)
  }

  /** What is left of the previous cache `c0` after the rendered items `r`:
      the entries of the models not rendered. */
  ghost predicate Leftover(cache: map<Model, CachedItem>, c0: map<Model, CachedItem>, r: seq<Model>) {
    cache == c0 - Members(r)
  }

  /** The measuring queue after the rendered items `r`, from the queue
      `q0`: the last new element of each model never measured is queued,
      nothing else changes. */
  ghost predicate QueuedAfter(q: OMap<Model, Measure.Element>, q0: OMap<Model, Measure.Element>, c0: map<Model, CachedItem>,
                              r: seq<Model>, p: seq<nat>, elems: seq<Measure.Element>, measured: map<Model, int>)
    requires |r| == |p| && forall k :: 0 <= k < |p| ==> p[k] < |elems|
  {
    && (forall m :: m !in Queued(c0, r, measured) ==> q.Get(m) == q0.Get(m))
    && forall k :: 0 <= k < |r| && IsLast(r, k) && !Reuses(c0, r, k) && r[k] !in measured ==> q.Get(r[k]) == Some(elems[p[k]])
  }

  /** One rendered item: the cache facts carry over from `r` to `r + [x]`,
      whether `x` takes over its entry from the previous cache or gets a
      new one. */
  lemma RenderStep(items: seq<nat>, current: map<Model, CachedItem>, cache: map<Model, CachedItem>, q: OMap<Model, Measure.Element>,
                   current': map<Model, CachedItem>, cache': map<Model, CachedItem>, q': OMap<Model, Measure.Element>, node: nat,
                   q0: OMap<Model, Measure.Element>, c0: map<Model, CachedItem>, r: seq<Model>, p: seq<nat>,
                   elems: seq<Measure.Element>, measured: map<Model, int>, x: Model, i: nat)
    requires |r| == |p| && i < |elems| && forall k :: 0 <= k < |p| ==> p[k] < |elems|
    requires NodesOf(items, c0, r, p, elems) && NewCache(current, items, c0, r) && Leftover(cache, c0, r)
    requires QueuedAfter(q, q0, c0, r, p, elems, measured)
    requires Keyed(current') && x in current' && current' == current[x := current'[x]]
    requires x in cache ==> current'[x] == cache[x] && node == cache[x].element && cache' == cache - {x} && q' == q
    requires x !in cache ==>
               && current'[x] !in c0.Values && node == elems[i].node && current'[x].element == node && cache' == cache
               && q' == if x in measured then q else q.Set(x, elems[i])
    ensures NodesOf(items + [node], c0, r + [x], p + [i], elems) && NewCache(current', items + [node], c0, r + [x])
    ensures Leftover(cache', c0, r + [x]) && QueuedAfter(q', q0, c0, r + [x], p + [i], elems, measured)
    ensures Queued(c0, r + [x], measured) == Queued(c0, r, measured) + (if x !in cache && x !in measured then {x} else {})
  {
    SnocFacts(c0, r, x, measured);
    var r', items' := r + [x], items + [node];
    assert Members(r') == Members(r) + {x};
    assert x in cache <==> x in c0 && x !in r;
    assert Reuses(c0, r', |r|) <==> x in cache;
    if x !in cache {
      assert cache' == c0 - Members(r');
    }
    forall k | 0 <= k < |r'| && IsLast(r', k)
      ensures Kept(current'[r'[k]], items'[k], c0, r', k)
    {
      if k < |r| {
        assert r[k] != x && IsLast(r, k);
      }
    }
  }

  /** What rendering the models at the positions `p` produces, from the
      previous cache `c0`, the queue `q0` and the frame flag `pending0`: the
      nodes, the new cache, the queue and the frame flag. */
  ghost predicate Rendered(items: seq<nat>, current: map<Model, CachedItem>,
                           q: OMap<Model, Measure.Element>, pending: bool, c0: map<Model, CachedItem>,
                           q0: OMap<Model, Measure.Element>, pending0: bool, models: seq<Model>, p: seq<nat>,
                           elems: seq<Measure.Element>, measured: map<Model, int>)
  {
    && |models| == |elems| && (forall k :: 0 <= k < |p| ==> p[k] < |models|)
    && var r := ModelsAt(models, p);
       && NodesOf(items, c0, r, p, elems)
       && NewCache(current, items, c0, r)
       && QueuedAfter(q, q0, c0, r, p, elems, measured)
       && (pending <==> pending0 || Queued(c0, r, measured) != {})
  }

  /** Recomputing with distinct models when the previous cache holds
      exactly the models that render, as it does after a cycle over the
      same models, heights and viewport: every entry is taken over, so the
      new cache is the previous one, each node is the cached element, the
      queue and the frame flag are as they were, and nothing is left over
      to dispose. */
  lemma SteadyRecompute(items: seq<nat>, current: map<Model, CachedItem>,
                        q: OMap<Model, Measure.Element>, pending: bool, c0: map<Model, CachedItem>,
                        q0: OMap<Model, Measure.Element>, pending0: bool, models: seq<Model>, p: seq<nat>,
                        elems: seq<Measure.Element>, measured: map<Model, int>)
    requires Distinct(models) && forall k, l :: 0 <= k < l < |p| ==> p[k] < p[l]
    requires Rendered(items, current, q, pending, c0, q0, pending0, models, p, elems, measured)
    requires forall m :: m in c0 <==> m in ModelsAt(models, p)
    ensures current == c0
    ensures forall k :: 0 <= k < |p| ==> items[k] == c0[models[p[k]]].element
    ensures (forall m :: q.Get(m) == q0.Get(m)) && pending == pending0
    ensures c0 - Members(ModelsAt(models, p)) == map[]
  {
    var r := ModelsAt(models, p);
    RenderedDistinct(models, p);
    SteadyCycle(c0, r, measured);
    forall m | m in c0
      ensures m in current && current[m] == c0[m]
    {
      var k :| 0 <= k < |r| && r[k] == m;
      assert Kept(current[r[k]], items[k], c0, r, k);
    }
  }

  /** Everything the cycle has done after rendering the models at the
      positions `p`: what is rendered, and the previous cache `cache` is
      down to the models not rendered. */
  ghost predicate Cycle(items: seq<nat>, current: map<Model, CachedItem>, cache: map<Model, CachedItem>,
                        q: OMap<Model, Measure.Element>, pending: bool, c0: map<Model, CachedItem>,
                        q0: OMap<Model, Measure.Element>, pending0: bool, models: seq<Model>, p: seq<nat>,
                        elems: seq<Measure.Element>, measured: map<Model, int>)
  {
    && Rendered(items, current, q, pending, c0, q0, pending0, models, p, elems, measured)
    && Leftover(cache, c0, ModelsAt(models, p))
  }

  /** One rendered model, at `index`, seen from the cycle: the facts carry
      over to the positions `p + [index]`, and the only entry of the new
      cache that is neither an old one nor one of the previous cache is the
      one created for the model. */
  lemma CycleStep(items: seq<nat>, current: map<Model, CachedItem>, cache: map<Model, CachedItem>,
                  q: OMap<Model, Measure.Element>, pending: bool,
                  current': map<Model, CachedItem>, cache': map<Model, CachedItem>,
                  q': OMap<Model, Measure.Element>, pending': bool, node: nat,
                  c0: map<Model, CachedItem>, q0: OMap<Model, Measure.Element>, pending0: bool,
                  models: seq<Model>, p: seq<nat>, elems: seq<Measure.Element>, measured: map<Model, int>, index: nat)
    requires Cycle(items, current, cache, q, pending, c0, q0, pending0, models, p, elems, measured)
    requires index < |models|
    requires var x := models[index];
             && Keyed(current') && x in current' && current' == current[x := current'[x]]
             && (x in cache ==>
                   && current'[x] == cache[x] && node == cache[x].element && cache' == cache - {x}
                   && q' == q && pending' == pending)
             && (x !in cache ==>
                   && current'[x] !in c0.Values && node == elems[index].node && current'[x].element == node
                   && cache' == cache && q' == (if x in measured then q else q.Set(x, elems[index]))
                   && (pending' <==> pending || x !in measured))
    ensures Cycle(items + [node], current', cache', q', pending', c0, q0, pending0, models, p + [index], elems, measured)
    ensures forall e :: e in current'.Values ==>
              e in current.Values || e in c0.Values || (models[index] !in cache && e == current'[models[index]])
  {
    var x := models[index];
    var r := ModelsAt(models, p);
    assert ModelsAt(models, p + [index]) == r + [x];
    assert Cycle(items + [node], current', cache', q', pending', c0, q0, pending0, models, p + [index], elems, measured) by {
      RenderStep(items, current, cache, q, current', cache', q', node, q0, c0, r, p, elems, measured, x, index);
    }
    EntriesStep(current, current', cache, c0, x);
  }

  /** The entries of the current cache after one rendered model `x`: the
      earlier ones, the one taken over from the previous cache, or the one
      created for `x`. */
  lemma EntriesStep(current: map<Model, CachedItem>, current': map<Model, CachedItem>, cache: map<Model, CachedItem>,
                    c0: map<Model, CachedItem>, x: Model)
    requires x in current' && current' == current[x := current'[x]]
    requires forall m :: m in cache ==> m in c0 && cache[m] == c0[m]
    requires x in cache ==> current'[x] == cache[x]
    ensures forall e :: e in current'.Values ==> e in current.Values || e in c0.Values || (x !in cache && e == current'[x])
  {
    forall e | e in current'.Values
      ensures e in current.Values || e in c0.Values || (x !in cache && e == current'[x])
    {
      var m :| m in current' && current'[m] == e;
      if m != x {
        assert current'[m] == current[m];
      }
    }
  }

  /** Before any model is rendered nothing has happened. */
  lemma CycleStart(cache: map<Model, CachedItem>, q: OMap<Model, Measure.Element>, pending: bool,
                   models: seq<Model>, elems: seq<Measure.Element>, measured: map<Model, int>)
    requires |models| == |elems|
    ensures Cycle([], map[], cache, q, pending, cache, q, pending, models, [], elems, measured)
  {
    assert ModelsAt(models, []) == [];
    assert Members([]) == {};
    assert Queued(cache, [], measured) == {};
  }

  /* ---------------------------------------------------------------------- */
  /* The measurement                                                         */
  /* ---------------------------------------------------------------------- */

  /** The heights `measure` stores in queue order before the margin patch:
      each element's height plus the margin known once it has been read. */
  function Stored(m0: Option<int>, elems: seq<Measure.Element>): (s: seq<int>)
  {
    seq(|elems|, k requires 0 <= k < |elems| => Measure.UsedMargin(m0, elems, k) + elems[k].height)
  }

  /** How many queue entries the margin patch of `measure` walks over: up
      to the element the margin was found on, when it was found in this
      measurement; none otherwise. */
  function PatchStop(m0: Option<int>, elems: seq<Measure.Element>): (n: nat)
    ensures n <= |elems|
  {
    var s := Measure.ScanAt(m0, elems, |elems|);
    if s.newMarginValue != 0 && s.firstWithMargin.Some? then Measure.IndexOfNode(elems, s.firstWithMargin.value) else 0
  }

  /** `vals` with `margin` added to each of the first `n` values. */
  function Patched(vals: seq<int>, margin: int, n: nat): (r: seq<int>)
  {
    seq(|vals|, k requires 0 <= k < |vals| => vals[k] + if k < n then margin else 0)
  }

  /** The heights `measure` leaves for the queued elements: the stored
      ones, with the margin patched onto those before the element the
      margin was found on. */
  function FlushedHeights(m0: Option<int>, elems: seq<Measure.Element>): (r: seq<int>)
    ensures |r| == |elems|
  {
    Patched(Stored(m0, elems), Measure.MarginAfter(m0, elems), PatchStop(m0, elems))
  }

  /** When no element is queued twice, every measured model ends with its
      element's height plus the final margin: the entries stored before the
      margin was found get it from the patch. */
  lemma FlushedClosed(m0: Option<int>, elems: seq<Measure.Element>, k: nat)
    requires Measure.DistinctNodes(elems) && k < |elems|
    ensures FlushedHeights(m0, elems)[k] == elems[k].height + Measure.MarginAfter(m0, elems)
  {
    Measure.UsedMarginClosed(m0, elems, k);
    var f := Measure.FirstMarginIndex(elems);
    if m0.None? && f < |elems| {
      Measure.IndexOfDistinctNode(elems, f);
    }
  }

  /** The sum of the heights `measure` leaves exceeds the height it
      compounds by the margin patched onto the entries stored before the
      margin was found: the compounded height, and so the scroll
      correction, leaves that margin out. */
  lemma FlushedTotal(m0: Option<int>, elems: seq<Measure.Element>)
    ensures Sum(FlushedHeights(m0, elems))
            == Sum(Stored(m0, elems)) + PatchStop(m0, elems) * Measure.MarginAfter(m0, elems)
  {
    PatchedSum(Stored(m0, elems), Measure.MarginAfter(m0, elems), PatchStop(m0, elems));
  }

  function Min(a: int, b: int): int {
    if a < b then a else b
  }

  lemma {:induction false} PatchedSum(vals: seq<int>, margin: int, n: nat)
    ensures Sum(Patched(vals, margin, n)) == Sum(vals) + Min(n, |vals|) * margin
  {
    if vals != [] {
      var m := |vals| - 1;
      PatchedSum(vals[..m], margin, n);
      assert Patched(vals, margin, n)[..m] == Patched(vals[..m], margin, n);
    }
  }

  /** The map `h` with `vals[k]` stored under `keys[k]`, in order. */
  function Stores(h: map<Model, int>, keys: seq<Model>, vals: seq<int>): map<Model, int>
    requires |keys| == |vals|
  {
    if keys == [] then h
    else
      var n := |keys| - 1;
      Stores(h, keys[..n], vals[..n])[keys[n] := vals[n]]
  }

  /** With distinct keys every key ends with its own value. */
  lemma {:induction false} StoresAt(h: map<Model, int>, keys: seq<Model>, vals: seq<int>, k: nat)
    requires |keys| == |vals| && Distinct(keys) && k < |keys|
    ensures keys[k] in Stores(h, keys, vals) && Stores(h, keys, vals)[keys[k]] == vals[k]
  {
    var n := |keys| - 1;
    if k < n {
      DistinctAt(keys, k, n);
      DistinctPrefix(keys, n);
      StoresAt(h, keys[..n], vals[..n], k);
    }
  }

  /** Every other key keeps its value in `h`, or stays absent. */
  lemma {:induction false} StoresOther(h: map<Model, int>, keys: seq<Model>, vals: seq<int>, m: Model)
    requires |keys| == |vals| && m !in keys
    ensures (m in Stores(h, keys, vals) <==> m in h) && (m in h ==> Stores(h, keys, vals)[m] == h[m])
  {
    if keys != [] {
      var n := |keys| - 1;
      StoresOther(h, keys[..n], vals[..n], m);
    }
  }

  /** Overwriting the value of one key is storing the updated values. */
  lemma {:induction false} StoresUpdate(h: map<Model, int>, keys: seq<Model>, vals: seq<int>, i: nat, v: int)
    requires |keys| == |vals| && Distinct(keys) && i < |keys|
    ensures Stores(h, keys, vals)[keys[i] := v] == Stores(h, keys, vals[i := v])
  {
    var n := |keys| - 1;
    assert vals[i := v][..n] == if i < n then vals[..n][i := v] else vals[..n];
    if i < n {
      DistinctAt(keys, i, n);
      DistinctPrefix(keys, n);
      StoresUpdate(h, keys[..n], vals[..n], i, v);
    }
  }

  /** One turn of the margin patch: adding the margin to the stored value
      of the `i`-th key extends the patch by one entry. */
  lemma PatchStep(h: map<Model, int>, keys: seq<Model>, vals: seq<int>, margin: int, i: nat)
    requires |keys| == |vals| && Distinct(keys) && i < |keys|
    ensures var s := Stores(h, keys, Patched(vals, margin, i));
            keys[i] in s && s[keys[i] := s[keys[i]] + margin] == Stores(h, keys, Patched(vals, margin, i + 1))
  {
    StoresAt(h, keys, Patched(vals, margin, i), i);
    StoresUpdate(h, keys, Patched(vals, margin, i), i, vals[i] + margin);
    assert Patched(vals, margin, i)[i := vals[i] + margin] == Patched(vals, margin, i + 1);
  }

  lemma DistinctPrefix(s: seq<Model>, n: nat)
    requires Distinct(s) && n <= |s|
    ensures Distinct(s[..n])
  {
    forall i, j | 0 <= i < j < n
      ensures Differ(s[..n], i, j)
    {
      DistinctAt(s, i, j);
    }
  }

  /** The amount by which each height exceeds `e`. */
  function Excess(s: seq<int>, e: int): (d: seq<int>)
  {
    seq(|s|, k requires 0 <= k < |s| => s[k] - e)
  }

  /** The correction of `ajustAfterRenderingNonMeasuredItemsAbove`,
      `compoundHeight - items * expectedItemHeight`, is the total excess of
      the measured heights over the expected height. */
  lemma {:induction false} CorrectionIsTotalExcess(s: seq<int>, e: int)
    ensures Sum(s) - |s| * e == Sum(Excess(s, e))
  {
    if s != [] {
      var n := |s|;
      CorrectionIsTotalExcess(s[..n - 1], e);
      assert Excess(s, e)[..n - 1] == Excess(s[..n - 1], e);
    }
  }

  /* ---------------------------------------------------------------------- */
  /* The closure                                                             */
  /* ---------------------------------------------------------------------- */

  /** The mutable closure variables of `createVirtualList` (the signals are
      plain values; a requested measuring frame is `measurePending`, a
      requested scroll frame is counted in `scrollFrames`). */
  datatype Fields = Fields(
    cache: map<Model, CachedItem>, itemsHeights: map<Model, int>,
    scrollTop: int, height: int, viewportHeight: int, itemMarginTop: Option<int>,
    itemsToMeasure: OMap<Model, Measure.Element>, measurePending: bool,
    scrollElem: Scroll.HostElement?, scrollFrames: nat, scrollState: Scroll.ScrollState,
    ticking: bool, itemsWrapperTop: int)

  /** The closure of `createVirtualList`. `itemHeight` is the fixed item
      height, if one is given. */
  class VirtualList {
    const itemHeight: Option<int>
    const expectedItemHeight: int
    const offset: int
    var cache: map<Model, CachedItem>
    var itemsHeights: map<Model, int>
    var scrollTop: int
    var height: int
    var viewportHeight: int
    var itemMarginTop: Option<int>
    var itemsToMeasure: OMap<Model, Measure.Element>
    var measurePending: bool
    var scrollElem: Scroll.HostElement?
    var scrollFrames: nat
    var scrollState: Scroll.ScrollState
    var ticking: bool
    var itemsWrapperTop: int

    /** The cache and the queue are proper maps, every cached entry is
        stored under its own model, and a non-empty queue always has a
        measuring frame on its way. */
    ghost predicate Valid()
      reads this
    {
      Maps() && (itemsToMeasure.Size() > 0 ==> measurePending)
    }

    ghost predicate Maps()
      reads this
    {
      Keyed(cache) && itemsToMeasure.Valid()
    }

    /** A scroll state other than idle comes from reading the scrolled
        element, so the element is bound by then. */
    ghost predicate Tracking()
      reads this
    {
      scrollState != Scroll.Idle ==> scrollElem != null
    }

    function State(): Fields
      reads this
    {
      Fields(cache, itemsHeights, scrollTop, height, viewportHeight, itemMarginTop, itemsToMeasure, measurePending,
             scrollElem, scrollFrames, scrollState, ticking, itemsWrapperTop)
    }

    /** The entries of the cache. */
    ghost function Entries(): set<CachedItem>
      reads this
    {
      cache.Values
    }

    constructor (itemHeight: Option<int>, expectedItemHeight: Option<int>, renderBeyondFold: Option<int>)
      ensures Valid()
      ensures this.itemHeight == itemHeight && this.expectedItemHeight == ExpectedOr35(expectedItemHeight)
      ensures offset == OffsetOr0(renderBeyondFold)
      ensures cache == map[] && itemsHeights == map[] && itemMarginTop.None?
      ensures scrollTop == 0 && height == 0 && viewportHeight == 0 && itemsWrapperTop == 0
      ensures itemsToMeasure.Size() == 0 && !measurePending
      ensures scrollElem == null && scrollFrames == 0 && scrollState == Scroll.Idle && !ticking
      ensures Tracking()
    {
      this.itemHeight := itemHeight;
      this.expectedItemHeight := ExpectedOr35(expectedItemHeight);
      offset := OffsetOr0(renderBeyondFold);
      cache := map[];
      itemsHeights := map[];
      scrollTop, height, viewportHeight := 0, 0, 0;
      itemMarginTop := None;
      itemsToMeasure := EmptyMap();
      measurePending := false;
      scrollElem := null;
      scrollFrames := 0;
      scrollState := Scroll.Idle;
      ticking := false;
      itemsWrapperTop := 0;
    }

    /** `getItemHeight`. */
    function GetItemHeight(model: Model): int
      reads this
    {
      ItemHeight(itemHeight, itemsHeights, expectedItemHeight, model)
    }

    /** The heights the cycle uses for `models`. */
    ghost function HeightsOf(models: seq<Model>): seq<int>
      reads this
    {
      Heights(itemHeight, itemsHeights, expectedItemHeight, models)
    }

    /** The positions the cycle renders among `models`. */
    ghost function RenderedOf(models: seq<Model>): seq<nat>
      reads this
    {
      Positions(HeightsOf(models), scrollTop - offset, scrollTop + viewportHeight + offset, |models|)
    }

    /** `scheduleMesure`: requests a measuring frame unless the queue is
        empty or one is already pending (the microtask repeats the same test
        and nothing can run in between, so it is taken at once). */
    method ScheduleMesure()
      requires Maps()
      modifies this
      ensures Valid()
      ensures State() == old(State()).(measurePending := old(measurePending) || itemsToMeasure.Size() > 0)
    {
      if itemsToMeasure.Size() == 0 || measurePending {
        return;
      }
      measurePending := true;
    }

    /** The ref callback handed to `getElement`: an element of a model that
        has never been measured is queued and a measurement scheduled. */
    method Ref(item: Model, el: Measure.Element)
      requires Valid()
      modifies this
      ensures Valid()
      ensures item in itemsHeights ==> State() == old(State())
      ensures item !in itemsHeights ==>
                State() == old(State()).(itemsToMeasure := old(itemsToMeasure).Set(item, el), measurePending := true)
    {
      if item !in itemsHeights {
        itemsToMeasure := itemsToMeasure.Set(item, el);
        ScheduleMesure();
      }
    }

    /** The body of the cycle for a rendered model: the entry of the
        previous cache is moved to the current one, or a new entry is
        created whose element is `el`. */
    method TakeOrCreate(item: Model, el: Measure.Element, current: map<Model, CachedItem>)
      returns (current': map<Model, CachedItem>, node: nat)
      requires Valid() && Keyed(current)
      modifies this
      ensures Valid() && Keyed(current') && item in current'
      ensures current' == current[item := current'[item]]
      ensures old(item in cache) ==>
                && current'[item] == old(cache[item]) && node == old(cache[item]).element
                && State() == old(State()).(cache := old(cache) - {item})
      ensures old(item !in cache) ==>
                && fresh(current'[item]) && current'[item].model == item
                && current'[item].element == el.node && current'[item].disposed == 0 && node == el.node
                && State() == old(State()).(itemsToMeasure := if item in itemsHeights then old(itemsToMeasure) else old(itemsToMeasure).Set(item, el),
                                            measurePending := old(measurePending) || item !in itemsHeights)
    {
      if item in cache {
        var entry := cache[item];
        current' := current[item := entry];
        node := entry.element;
        cache := cache - {item};
      } else {
        var entry := new CachedItem(item, el.node);
        current' := current[item := entry];
        Ref(item, el);
        node := entry.element;
      }
    }

    /** The body of the `for` loop for a model that renders: its entry is
        taken over or created, and the cache facts move from the rendered
        items before it to those including it. */
    method RenderOne(models: seq<Model>, elems: seq<Measure.Element>, index: nat, current: map<Model, CachedItem>,
                     ghost items: seq<nat>, ghost c0: map<Model, CachedItem>, ghost q0: OMap<Model, Measure.Element>,
                     ghost pending0: bool, ghost p: seq<nat>)
      returns (current': map<Model, CachedItem>, node: nat)
      requires Valid() && index < |models| == |elems|
      requires forall k :: 0 <= k < |p| ==> p[k] < index
      requires Cycle(items, current, cache, itemsToMeasure, measurePending, c0, q0, pending0, models, p, elems, itemsHeights)
      modifies this
      ensures Valid()
      ensures State() == old(State()).(cache := cache, itemsToMeasure := itemsToMeasure, measurePending := measurePending)
      ensures Cycle(items + [node], current', cache, itemsToMeasure, measurePending, c0, q0, pending0,
                    models, p + [index], elems, itemsHeights)
      ensures forall e :: e in current'.Values ==> e in current.Values || e in c0.Values || (fresh(e) && e.disposed == 0)
    {
      var item := models[index];
      ghost var cache0, q1, pending1 := cache, itemsToMeasure, measurePending;
      current', node := TakeOrCreate(item, elems[index], current);
      assert item !in cache0 ==> current'[item] !in c0.Values;
      CycleStep(items, current, cache0, q1, pending1, current', cache, itemsToMeasure, measurePending, node,
                c0, q0, pending0, models, p, elems, itemsHeights, index);
    }

    /** The state of the `for` loop of the `items` memo once the first
        `index` models are walked: `hs` are the heights of the models and
        `[lo, hi)` the buffered viewport. */
    ghost predicate Walked(models: seq<Model>, elems: seq<Measure.Element>, index: nat, hs: seq<int>, lo: int, hi: int,
                           compounded: int, topRenderedItem: int, items: seq<nat>, current: map<Model, CachedItem>, p: seq<nat>,
                           c0: map<Model, CachedItem>, q0: OMap<Model, Measure.Element>, pending0: bool)
      reads this
    {
      && Valid() && index <= |models| == |elems|
      && hs == Heights(itemHeight, itemsHeights, expectedItemHeight, models)
      && lo == scrollTop - offset && hi == scrollTop + viewportHeight + offset
      && p == Positions(hs, lo, hi, index) && compounded == Top(hs, index) && topRenderedItem == WrapperTop(hs, p)
      && Cycle(items, current, cache, itemsToMeasure, measurePending, c0, q0, pending0, models, p, elems, itemsHeights)
    }

    /** One turn of the `for` loop of the `items` memo, for the model at
        `index`: the compounded height grows by its height whether it
        renders or not; when it renders, it may set the wrapper top and its
        entry is taken over or created. */
    method PassStep(models: seq<Model>, elems: seq<Measure.Element>, index: nat, ghost hs: seq<int>, ghost lo: int, ghost hi: int,
                    compounded: int, topRenderedItem: int, items: seq<nat>, current: map<Model, CachedItem>, ghost p: seq<nat>,
                    ghost c0: map<Model, CachedItem>, ghost q0: OMap<Model, Measure.Element>, ghost pending0: bool)
      returns (compounded': int, topRenderedItem': int, items': seq<nat>, current': map<Model, CachedItem>, ghost p': seq<nat>)
      requires index < |models|
      requires Walked(models, elems, index, hs, lo, hi, compounded, topRenderedItem, items, current, p, c0, q0, pending0)
      modifies this
      ensures State() == old(State()).(cache := cache, itemsToMeasure := itemsToMeasure, measurePending := measurePending)
      ensures Walked(models, elems, index + 1, hs, lo, hi, compounded', topRenderedItem', items', current', p', c0, q0, pending0)
      ensures forall e :: e in current'.Values ==> e in current.Values || e in c0.Values || (fresh(e) && e.disposed == 0)
    {
      compounded', topRenderedItem', items', current', p' := compounded, topRenderedItem, items, current, p;
      var item := models[index];
      var itemTop := compounded;
      var itemHeight := GetItemHeight(item);
      WindowStep(hs, lo, hi, index);
      if !ShouldRender(compounded, compounded + itemHeight, scrollTop - offset, scrollTop + viewportHeight + offset) {
        compounded' := compounded + itemHeight;
        return;
      }
      compounded' := compounded + itemHeight;
      if topRenderedItem < 0 {
        topRenderedItem' := itemTop;
      }
      var node;
      current', node := RenderOne(models, elems, index, current, items, c0, q0, pending0, p);
      items' := items + [node];
      p' := p + [index];
    }

    /** The `for` loop of the `items` memo: walks every model, accumulating
        the compounded height, and for each model that overlaps the buffered
        viewport takes over or creates its entry and collects its node. */
    method RenderPass(models: seq<Model>, elems: seq<Measure.Element>)
      returns (items: seq<nat>, current: map<Model, CachedItem>, compounded: int, topRenderedItem: int)
      requires Valid() && |elems| == |models|
      modifies this
      ensures Valid()
      ensures State() == old(State()).(cache := cache, itemsToMeasure := itemsToMeasure, measurePending := measurePending)
      ensures var hs := old(HeightsOf(models)); var p := old(RenderedOf(models));
              && compounded == Sum(hs)
              && topRenderedItem == WrapperTop(hs, p)
              && Cycle(items, current, cache, itemsToMeasure, measurePending, old(cache), old(itemsToMeasure),
                       old(measurePending), models, p, elems, itemsHeights)
      ensures forall e :: e in current.Values && e !in old(cache).Values ==> fresh(e) && e.disposed == 0
    {
      ghost var c0, q0, pending0 := cache, itemsToMeasure, measurePending;
      ghost var hs := HeightsOf(models);
      ghost var s0 := State();
      var fromTop := scrollTop;
      ghost var lo, hi := fromTop - offset, fromTop + viewportHeight + offset;
      ghost var p: seq<nat> := [];
      ghost var rendered := RenderedOf(models);
      assert rendered == Positions(hs, lo, hi, |models|);
      items, current := [], map[];
      compounded, topRenderedItem := 0, -1;
      CycleStart(cache, itemsToMeasure, measurePending, models, elems, itemsHeights);
      for index := 0 to |models|
        invariant State() == s0.(cache := cache, itemsToMeasure := itemsToMeasure, measurePending := measurePending)
        invariant Walked(models, elems, index, hs, lo, hi, compounded, topRenderedItem, items, current, p, c0, q0, pending0)
        invariant forall e :: e in current.Values && e !in c0.Values ==> fresh(e) && e.disposed == 0
      {
        compounded, topRenderedItem, items, current, p :=
          PassStep(models, elems, index, hs, lo, hi, compounded, topRenderedItem, items, current, p, c0, q0, pending0);
      }
      assert hs[..|models|] == hs;
      assert p == rendered;
      assert Valid();
    }

    /** The render pass of the `items` memo and the switch to the new
        cache: the list height is the sum of all heights, the wrapper top
        the top of the first rendered model, the new cache holds exactly the
        rendered models, each with the entry taken over from the previous
        cache or a new one; `left` is what remains of the previous cache,
        the entries of the models that were not rendered. */
    method ReplaceCache(models: seq<Model>, elems: seq<Measure.Element>) returns (items: seq<nat>, left: map<Model, CachedItem>)
      requires Valid() && |elems| == |models|
      modifies this
      ensures Valid()
      ensures State() == old(State()).(cache := cache, itemsToMeasure := itemsToMeasure, measurePending := measurePending,
                                       height := height, itemsWrapperTop := itemsWrapperTop)
      ensures height == Sum(old(HeightsOf(models)))
      ensures itemsWrapperTop == WrapperTop(old(HeightsOf(models)), old(RenderedOf(models)))
      ensures Rendered(items, cache, itemsToMeasure, measurePending, old(cache), old(itemsToMeasure), old(measurePending),
                       models, old(RenderedOf(models)), elems, itemsHeights)
      ensures left == old(cache) - Members(ModelsAt(models, old(RenderedOf(models))))
      ensures forall e :: e in cache.Values && e !in old(cache).Values ==> fresh(e) && e.disposed == 0
    {
      ghost var c0, q0, pending0, measured := cache, itemsToMeasure, measurePending, itemsHeights;
      ghost var hs, p := HeightsOf(models), RenderedOf(models);
      ghost var s0 := State();
      var current, compounded, topRenderedItem;
      items, current, compounded, topRenderedItem := RenderPass(models, elems);
      ghost var s1 := State();
      assert s1 == s0.(cache := s1.cache, itemsToMeasure := s1.itemsToMeasure, measurePending := s1.measurePending);
      ghost var rendered := Rendered(items, current, s1.itemsToMeasure, s1.measurePending, c0, q0, pending0,
                                     models, p, elems, s1.itemsHeights);
      assert rendered;
      left := cache;
      assert left == c0 - Members(ModelsAt(models, p));
      cache := current;
      height := compounded;
      itemsWrapperTop := topRenderedItem;
      assert State() == s1.(cache := current, height := compounded, itemsWrapperTop := topRenderedItem);
      assert rendered;
    }

    /** The `items` memo: one recomputation. `elems[i]` is the element
        `getElement` produces for `models[i]` when it is created. On top of
        what `ReplaceCache` states, every entry of the previous cache that
        was not taken over is disposed exactly once, the others not at
        all. */
    method Recompute(models: seq<Model>, elems: seq<Measure.Element>) returns (items: seq<nat>)
      requires Valid() && |elems| == |models|
      modifies this, Entries()
      ensures Valid()
      ensures State() == old(State()).(cache := cache, itemsToMeasure := itemsToMeasure, measurePending := measurePending,
                                       height := height, itemsWrapperTop := itemsWrapperTop)
      ensures height == Sum(old(HeightsOf(models)))
      ensures itemsWrapperTop == WrapperTop(old(HeightsOf(models)), old(RenderedOf(models)))
      ensures Rendered(items, cache, itemsToMeasure, measurePending, old(cache), old(itemsToMeasure), old(measurePending),
                       models, old(RenderedOf(models)), elems, itemsHeights)
      ensures var r := ModelsAt(models, old(RenderedOf(models)));
              forall m :: m in old(cache) ==> old(cache)[m].disposed == old(cache[m].disposed) + if m in r then 0 else 1
      ensures forall e :: e in Entries() && e !in old(Entries()) ==> fresh(e) && e.disposed == 0
    {
      ghost var c0 := cache;
      ghost var r := ModelsAt(models, RenderedOf(models));
      var left;
      items, left := ReplaceCache(models, elems);
      DisposeLeftover(c0, r, left);
    }

    /** The `forEach` of `measure`: every queued model gets its element's
        height plus the margin in force at its turn, the margin is
        discovered on the first element with a nonzero margin-top, and the
        stored heights are compounded. */
    method MeasureEach(keys: seq<Model>, elems: seq<Measure.Element>)
      returns (compound: int, newItemMarginValue: int, firstWithMargin: Option<nat>)
      requires |keys| == |elems|
      modifies this
      ensures State() == old(State()).(itemsHeights := itemsHeights, itemMarginTop := itemMarginTop)
      ensures itemsHeights == Stores(old(itemsHeights), keys, Stored(old(itemMarginTop), elems))
      ensures compound == Sum(Stored(old(itemMarginTop), elems))
      ensures Measure.MarginScan(itemMarginTop, newItemMarginValue, firstWithMargin)
              == Measure.ScanAt(old(itemMarginTop), elems, |elems|)
    {
      ghost var m0, h0 := itemMarginTop, itemsHeights;
      ghost var stored := Stored(m0, elems);
      compound, newItemMarginValue, firstWithMargin := 0, 0, None;
      for i := 0 to |keys|
        invariant State() == old(State()).(itemsHeights := itemsHeights, itemMarginTop := itemMarginTop)
        invariant Measure.MarginScan(itemMarginTop, newItemMarginValue, firstWithMargin) == Measure.ScanAt(m0, elems, i)
        invariant itemsHeights == Stores(h0, keys[..i], stored[..i])
        invariant compound == Sum(stored[..i])
      {
        Measure.ScanStep(m0, elems, i);
        var elem := elems[i];
        var height := elem.height;
        if itemMarginTop.None? {
          newItemMarginValue := elem.marginTop;
          if newItemMarginValue != 0 {
            itemMarginTop := Some(newItemMarginValue);
            firstWithMargin := Some(elem.node);
          }
        }
        var actual := (if itemMarginTop.Some? then itemMarginTop.value else 0) + height;
        compound := compound + actual;
        itemsHeights := itemsHeights[keys[i] := actual];
        assert keys[..i + 1][..i] == keys[..i] && stored[..i + 1][..i] == stored[..i];
      }
      assert keys[..|keys|] == keys && stored[..|keys|] == stored;
    }

    /** The margin patch loop of `measure`: walks the queue until the
        element `node` and adds `margin` to each stored height on the way. */
    method AddMarginBefore(keys: seq<Model>, elems: seq<Measure.Element>, node: nat, margin: int,
                           ghost h: map<Model, int>, ghost vals: seq<int>)
      requires |keys| == |elems| == |vals| && Distinct(keys)
      requires itemsHeights == Stores(h, keys, vals)
      modifies this
      ensures State() == old(State()).(itemsHeights := itemsHeights)
      ensures itemsHeights == Stores(h, keys, Patched(vals, margin, Measure.IndexOfNode(elems, node)))
    {
      var i := 0;
      assert Patched(vals, margin, 0) == vals;
      while i < |keys| && elems[i].node != node
        invariant i <= Measure.IndexOfNode(elems, node)
        invariant State() == old(State()).(itemsHeights := itemsHeights)
        invariant itemsHeights == Stores(h, keys, Patched(vals, margin, i))
      {
        PatchStep(h, keys, vals, margin, i);
        itemsHeights := itemsHeights[keys[i] := itemsHeights[keys[i]] + margin];
        i := i + 1;
      }
    }

    /** `ajustAfterRenderingNonMeasuredItemsAbove`: the `items` just
        measured were assumed at the expected height; the list and the
        scroll position grow by how much their measured height
        `compoundHeight` exceeds that, so the items in view stay put. */
    method AjustAfterRenderingNonMeasuredItemsAbove(items: int, compoundHeight: int)
      requires scrollElem != null
      modifies this, scrollElem
      ensures scrollElem == old(scrollElem)
      ensures var delta := compoundHeight - items * expectedItemHeight;
              && scrollElem.scrollTop == old(scrollTop) + delta
              && State() == old(State()).(height := old(height) + delta)
      ensures scrollElem.clientHeight == old(scrollElem.clientHeight) && scrollElem.offsetTop == old(scrollElem.offsetTop)
    {
      var fromTop := scrollTop;
      var expectedHeight := items * expectedItemHeight;
      var heightDelta := compoundHeight - expectedHeight;
      scrollElem.ScrollTo(fromTop + heightDelta);
      height := height + heightDelta;
    }

    /** `measure` up to the scroll correction: every queued model ends
        with its height (the margin included), the margin is defined from
        then on, the queue is emptied and the frame released. Returns the
        number of queued models and the height compounded for them. */
    method FlushQueue() returns (nonMeasured: nat, compound: int)
      requires Valid()
      modifies this
      ensures Valid()
      ensures var elems := Measure.QueueElems(old(itemsToMeasure));
              && nonMeasured == old(itemsToMeasure.Size())
              && compound == Sum(Stored(old(itemMarginTop), elems))
              && itemsHeights == Stores(old(itemsHeights), old(itemsToMeasure.keys), FlushedHeights(old(itemMarginTop), elems))
              && itemMarginTop == Some(Measure.MarginAfter(old(itemMarginTop), elems))
      ensures State() == old(State()).(itemsHeights := itemsHeights, itemMarginTop := itemMarginTop,
                                       itemsToMeasure := EmptyMap(), measurePending := false)
    {
      var keys := itemsToMeasure.keys;
      var elems := Measure.QueueElems(itemsToMeasure);
      nonMeasured := itemsToMeasure.Size();
      ghost var m0, h0 := itemMarginTop, itemsHeights;
      var newItemMarginValue, firstWithMargin;
      compound, newItemMarginValue, firstWithMargin := MeasureEach(keys, elems);
      if itemMarginTop.None? || itemMarginTop.value == 0 {
        itemMarginTop := Some(0);
      }
      if newItemMarginValue != 0 && firstWithMargin.Some? {
        AddMarginBefore(keys, elems, firstWithMargin.value, itemMarginTop.value, h0, Stored(m0, elems));
      } else {
        assert Patched(Stored(m0, elems), Measure.MarginAfter(m0, elems), 0) == Stored(m0, elems);
      }
      measurePending := false;
      itemsToMeasure := EmptyMap();
    }

    /** `measure`, the measuring frame's callback: the queue is flushed,
        and when items were measured while scrolling up and heights are not
        fixed, the list and the scroll position are corrected by the
        measured heights' excess over the expected height. */
    method MeasureFrame()
      requires Valid() && Tracking()
      modifies this, scrollElem
      ensures Valid() && Tracking() && scrollElem == old(scrollElem)
      ensures var elems := Measure.QueueElems(old(itemsToMeasure));
              && itemsHeights == Stores(old(itemsHeights), old(itemsToMeasure.keys), FlushedHeights(old(itemMarginTop), elems))
              && itemMarginTop == Some(Measure.MarginAfter(old(itemMarginTop), elems))
      ensures var correct := (itemHeight.None? || itemHeight.value == 0) && old(scrollState) == Scroll.Up
                             && old(itemsToMeasure.Size()) > 0;
              var delta := Sum(Stored(old(itemMarginTop), Measure.QueueElems(old(itemsToMeasure))))
                           - old(itemsToMeasure.Size()) * expectedItemHeight;
              && height == old(height) + (if correct then delta else 0)
              && (correct ==> scrollElem != null && scrollElem.scrollTop == old(scrollTop) + delta)
              && (!correct && scrollElem != null ==> scrollElem.scrollTop == old(scrollElem.scrollTop))
      ensures scrollElem != null ==> scrollElem.clientHeight == old(scrollElem.clientHeight)
                                     && scrollElem.offsetTop == old(scrollElem.offsetTop)
      ensures State() == old(State()).(itemsHeights := itemsHeights, itemMarginTop := itemMarginTop,
                                       itemsToMeasure := EmptyMap(), measurePending := false, height := height)
    {
      var nonMeasured, compound := FlushQueue();
      if (itemHeight.None? || itemHeight.value == 0) && scrollState == Scroll.Up && nonMeasured > 0 {
        AjustAfterRenderingNonMeasuredItemsAbove(nonMeasured, compound);
      }
    }

    /** `setScrollElem`: binds the scrolled element (whose scroll events
        then arrive as calls to `OnScroll`). */
    method SetScrollElem(elem: Scroll.HostElement)
      modifies this
      ensures State() == old(State()).(scrollElem := elem)
      ensures old(Tracking()) ==> Tracking()
    {
      scrollElem := elem;
    }

    /** `measureContainer`: takes the scroll top and the viewport height
        from the scrolled element, derives the scroll state from the sign of
        the change of scroll top and clears `ticking`. */
    method MeasureContainer()
      requires scrollElem != null
      modifies this
      ensures Tracking() && scrollElem == old(scrollElem)
      ensures State() == old(State()).(scrollTop := scrollElem.scrollTop, viewportHeight := scrollElem.clientHeight,
                                       scrollState := Scroll.StateOf(scrollElem.scrollTop - old(scrollTop)), ticking := false)
    {
      var delta := scrollElem.scrollTop - scrollTop;
      scrollTop := scrollElem.scrollTop;
      viewportHeight := scrollElem.clientHeight;
      if delta != 0 {
        scrollState := if delta > 0 then Scroll.Down else Scroll.Up;
      } else {
        scrollState := Scroll.Idle;
      }
      ticking := false;
    }

    /** `onScroll`: requests a scroll frame unless one is on its way. As a
        guard without suppression, this is the tracker's event guard. */
    method OnScroll()
      modifies this
      ensures Scroll.Guard(ticking, false, scrollFrames) == Scroll.OnScrollGuard(Scroll.Guard(old(ticking), false, old(scrollFrames)))
      ensures State() == old(State()).(ticking := ticking, scrollFrames := scrollFrames)
    {
      if !ticking {
        scrollFrames := scrollFrames + 1;
        ticking := true;
      }
    }

    /** A requested scroll frame runs its callback, `measureContainer`. */
    method RunScrollFrame()
      requires scrollFrames > 0 && scrollElem != null
      modifies this
      ensures Tracking() && scrollElem == old(scrollElem)
      ensures Scroll.Guard(ticking, false, scrollFrames) == Scroll.FrameGuard(Scroll.Guard(old(ticking), false, old(scrollFrames)))
      ensures State() == old(State()).(scrollTop := scrollElem.scrollTop, viewportHeight := scrollElem.clientHeight,
                                       scrollState := Scroll.StateOf(scrollElem.scrollTop - old(scrollTop)),
                                       ticking := false, scrollFrames := old(scrollFrames) - 1)
    {
      scrollFrames := scrollFrames - 1;
      MeasureContainer();
    }
  }
}
