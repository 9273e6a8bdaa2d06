/** Keyed array diffs (src/array.ts): the reconciler that turns two id-keyed
    arrays into removes, inserts and moves, the patience-sorting longest
    increasing subsequence it relies on, and two plain set diffs. */
module ArrayDiff {
  import opened Common

  datatype Move = Move(item: Model, to: int)

  /** What `reconcile` returns. */
  datatype Patch = Patch(removes: seq<Model>, inserts: seq<Model>, moves: seq<Move>)

  /* ---------------------------------------------------------------------- */
  /* Longest strictly increasing subsequence                                 */
  /* ---------------------------------------------------------------------- */

  /** `s` lists positions of `arr` in increasing order, and the values at
      those positions strictly increase. */
  ghost predicate IncreasingSubsequence(arr: seq<int>, s: seq<int>) {
    && (forall k :: 0 <= k < |s| ==> 0 <= s[k] < |arr|)
    && (forall k :: 0 < k < |s| ==> s[k - 1] < s[k] && arr[s[k - 1]] < arr[s[k]])
  }

  /** Following the predecessor array `p` from `j` takes `k` steps, each to a
      smaller position holding a smaller value: an increasing subsequence of
      length `k + 1` ends at `j`. */
  ghost predicate Chain(arr: seq<int>, p: seq<int>, j: int, k: nat)
    decreases k
  {
    && 0 <= j < |arr| && |p| == |arr|
    && (k > 0 ==> 0 <= p[j] < j && arr[p[j]] < arr[j] && Chain(arr, p, p[j], k - 1))
  }

  /** Every increasing subsequence ending before position `i` is no longer
      than `tails`, and its last value is at least the value at the tail
      kept for its length. */
  ghost predicate TailsOptimal(arr: seq<int>, tails: seq<int>, i: int) {
    && (forall k :: 0 <= k < |tails| ==> 0 <= tails[k] < |arr|)
    && (forall s :: IncreasingSubsequence(arr, s) && |s| > 0 && s[|s| - 1] < i ==>
          |s| <= |tails| && arr[tails[|s| - 1]] <= arr[s[|s| - 1]])
  }

  lemma {:induction false} ChainFrame(arr: seq<int>, p: seq<int>, q: seq<int>, j: int, k: nat, i: int)
    requires Chain(arr, p, j, k) && j < i && |q| == |p|
    requires forall t :: 0 <= t < i && t < |p| ==> q[t] == p[t]
    ensures Chain(arr, q, j, k)
    decreases k
  {
    if k > 0 {
      ChainFrame(arr, p, q, p[j], k - 1, i);
    }
  }

  /** Processing position `i` keeps the tails optimal, provided every tail
      value only decreases and each length an increasing subsequence ending at
      `i` can have gets a tail no larger than `arr[i]`. */
  /** `t2` has a tail for every length `t` has, none larger than before, and
      one no larger than `arr[i]` for each length an increasing subsequence
      ending at `i` can have. */
  ghost predicate Improves(arr: seq<int>, t: seq<int>, t2: seq<int>, i: int)
    requires 0 <= i < |arr|
    requires forall k :: 0 <= k < |t| ==> 0 <= t[k] < |arr|
    requires forall k :: 0 <= k < |t2| ==> 0 <= t2[k] < |arr|
  {
    && |t| <= |t2|
    && (forall k :: 0 <= k < |t| ==> arr[t2[k]] <= arr[t[k]])
    && (forall k :: 0 <= k <= |t| && (k == 0 || arr[t[k - 1]] < arr[i]) ==>
          k < |t2| && arr[t2[k]] <= arr[i])
  }

  lemma OptimalStep(arr: seq<int>, t: seq<int>, t2: seq<int>, i: int)
    requires 0 <= i < |arr|
    requires TailsOptimal(arr, t, i)
    requires forall k :: 0 <= k < |t2| ==> 0 <= t2[k] < |arr|
    requires Improves(arr, t, t2, i)
    ensures TailsOptimal(arr, t2, i + 1)
  {
    forall s | IncreasingSubsequence(arr, s) && |s| > 0 && s[|s| - 1] < i + 1
      ensures |s| <= |t2| && arr[t2[|s| - 1]] <= arr[s[|s| - 1]]
    {
      OptimalAt(arr, t, t2, i, s);
    }
  }

  /** `OptimalStep` for one increasing subsequence `s`. */
  lemma OptimalAt(arr: seq<int>, t: seq<int>, t2: seq<int>, i: int, s: seq<int>)
    requires 0 <= i < |arr|
    requires TailsOptimal(arr, t, i)
    requires forall k :: 0 <= k < |t2| ==> 0 <= t2[k] < |arr|
    requires Improves(arr, t, t2, i)
    requires IncreasingSubsequence(arr, s) && |s| > 0 && s[|s| - 1] < i + 1
    ensures |s| <= |t2| && arr[t2[|s| - 1]] <= arr[s[|s| - 1]]
  {
    var m := |s|;
    if s[m - 1] < i {
      assert |s| <= |t| && arr[t[m - 1]] <= arr[s[m - 1]];
    } else if m > 1 {
      DropLast(arr, s);
      var s' := s[..m - 1];
      assert s'[|s'| - 1] == s[m - 2];
      assert m - 1 <= |t| && arr[t[m - 2]] <= arr[s[m - 2]];
    }
  }

  /** Dropping the last position of an increasing subsequence leaves one. */
  lemma DropLast(arr: seq<int>, s: seq<int>)
    requires IncreasingSubsequence(arr, s) && |s| > 0
    ensures IncreasingSubsequence(arr, s[..|s| - 1])
  {
    var s' := s[..|s| - 1];
    forall k | 0 < k < |s'| ensures s'[k - 1] < s'[k] && arr[s'[k - 1]] < arr[s'[k]] {
      assert s'[k - 1] == s[k - 1] && s'[k] == s[k];
    }
  }

  /** What the main loop of `longestIncreasingSubsequence` keeps after
      position `i - 1`: `tails` holds positions below `i` with strictly
      increasing values, the predecessor chain from `tails[k]` is `k` steps
      long, and the tails are optimal. */
  ghost predicate TailsInvariant(arr: seq<int>, p: seq<int>, tails: seq<int>, i: int) {
    && 1 <= i <= |arr| == |p|
    && 1 <= |tails| <= i
    && (forall k :: 0 <= k < |tails| ==> 0 <= tails[k] < i)
    && (forall a, b :: 0 <= a < b < |tails| ==> arr[tails[a]] < arr[tails[b]])
    && (forall k :: 0 <= k < |tails| ==> Chain(arr, p, tails[k], k))
    && TailsOptimal(arr, tails, i)
  }

  /** Positions of an increasing subsequence are at least their rank. */
  lemma {:induction false} IncreasingRank(arr: seq<int>, s: seq<int>)
    requires IncreasingSubsequence(arr, s)
    ensures |s| > 0 ==> s[|s| - 1] >= |s| - 1
    decreases |s|
  {
    if |s| > 1 {
      var s' := s[..|s| - 1];
      DropLast(arr, s);
      IncreasingRank(arr, s');
      assert s'[|s'| - 1] == s[|s| - 2];
    }
  }

  /** Appending `i` after the last tail keeps the loop invariant. */
  lemma PushKeeps(arr: seq<int>, q: seq<int>, tails: seq<int>, i: int)
    requires i < |arr| && TailsInvariant(arr, q, tails, i)
    requires arr[i] > arr[tails[|tails| - 1]]
    ensures TailsInvariant(arr, q[i := tails[|tails| - 1]], tails + [i], i + 1)
  {
    var last := tails[|tails| - 1];
    var q2 := q[i := last];
    var r := tails + [i];
    forall k | 0 <= k < |r| ensures Chain(arr, q2, r[k], k) {
      if k < |tails| {
        ChainFrame(arr, q, q2, tails[k], k, i);
      } else {
        ChainFrame(arr, q, q2, last, k - 1, i);
      }
    }
    forall a, b | 0 <= a < b < |r| ensures arr[r[a]] < arr[r[b]] {
      if b == |tails| && a < |tails| - 1 {
        assert arr[tails[a]] < arr[last];
      }
    }
    assert forall k :: 0 <= k < |r| ==> 0 <= r[k] < i + 1;
    assert Improves(arr, tails, r, i) by {
      forall k | 0 <= k < |tails| ensures arr[r[k]] <= arr[i] {
        if k < |tails| - 1 {
          assert arr[tails[k]] < arr[last];
        }
      }
    }
    OptimalStep(arr, tails, r, i);
  }

  /** Overwriting tail `u`, the first whose value is not below `arr[i]`,
      with `i` keeps the loop invariant when `arr[i]` is strictly smaller. */
  lemma ReplaceKeeps(arr: seq<int>, q: seq<int>, tails: seq<int>, i: int, u: int)
    requires i < |arr| && TailsInvariant(arr, q, tails, i)
    requires 0 <= u < |tails| && arr[i] < arr[tails[u]]
    requires forall c :: 0 <= c < u ==> arr[tails[c]] < arr[i]
    ensures TailsInvariant(arr, if u > 0 then q[i := tails[u - 1]] else q, tails[u := i], i + 1)
  {
    var q2 := if u > 0 then q[i := tails[u - 1]] else q;
    var r := tails[u := i];
    ReplaceChains(arr, q, tails, i, u, q2, r);
    ReplaceSorted(arr, tails, i, u, r);
    ReplaceImproves(arr, tails, i, u, r);
    OptimalStep(arr, tails, r, i);
  }

  /** Tail values stay strictly increasing after `ReplaceKeeps`'s overwrite. */
  lemma ReplaceSorted(arr: seq<int>, tails: seq<int>, i: int, u: int, r: seq<int>)
    requires 0 <= i < |arr| && (forall k :: 0 <= k < |tails| ==> 0 <= tails[k] < i)
    requires forall a, b :: 0 <= a < b < |tails| ==> arr[tails[a]] < arr[tails[b]]
    requires 0 <= u < |tails| && arr[i] < arr[tails[u]]
    requires forall c :: 0 <= c < u ==> arr[tails[c]] < arr[i]
    requires r == tails[u := i]
    ensures forall k :: 0 <= k < |r| ==> 0 <= r[k] < i + 1
    ensures forall a, b :: 0 <= a < b < |r| ==> arr[r[a]] < arr[r[b]]
  {
    forall a, b | 0 <= a < b < |r| ensures arr[r[a]] < arr[r[b]] {
      if a == u {
        assert arr[tails[u]] < arr[tails[b]];
      } else if b != u {
        assert arr[tails[a]] < arr[tails[b]];
      }
    }
  }

  /** After `ReplaceKeeps`'s overwrite the tails improve on the old ones. */
  lemma ReplaceImproves(arr: seq<int>, tails: seq<int>, i: int, u: int, r: seq<int>)
    requires 0 <= i < |arr| && (forall k :: 0 <= k < |tails| ==> 0 <= tails[k] < i)
    requires forall a, b :: 0 <= a < b < |tails| ==> arr[tails[a]] < arr[tails[b]]
    requires 0 <= u < |tails| && arr[i] < arr[tails[u]]
    requires forall c :: 0 <= c < u ==> arr[tails[c]] < arr[i]
    requires r == tails[u := i]
    ensures Improves(arr, tails, r, i)
  {
    forall k | 0 <= k <= |tails| && (k == 0 || arr[tails[k - 1]] < arr[i])
      ensures k < |r| && arr[r[k]] <= arr[i]
    {
      if k > u {
        assert false;
      }
    }
  }

  /** The chains of `ReplaceKeeps`: tail `u` now chains through tail `u - 1`. */
  lemma ReplaceChains(arr: seq<int>, q: seq<int>, tails: seq<int>, i: int, u: int, q2: seq<int>, r: seq<int>)
    requires i < |arr| && TailsInvariant(arr, q, tails, i)
    requires 0 <= u < |tails| && arr[i] < arr[tails[u]]
    requires forall c :: 0 <= c < u ==> arr[tails[c]] < arr[i]
    requires q2 == (if u > 0 then q[i := tails[u - 1]] else q) && r == tails[u := i]
    ensures forall k :: 0 <= k < |r| ==> Chain(arr, q2, r[k], k)
  {
    forall k | 0 <= k < |r| ensures Chain(arr, q2, r[k], k) {
      if k != u {
        ChainFrame(arr, q, q2, tails[k], k, i);
      } else if k > 0 {
        ChainFrame(arr, q, q2, tails[k - 1], k - 1, i);
      }
    }
  }

  /** A value equal to tail `u`'s changes nothing and keeps the loop invariant. */
  lemma EqualKeeps(arr: seq<int>, q: seq<int>, tails: seq<int>, i: int, u: int)
    requires i < |arr| && TailsInvariant(arr, q, tails, i)
    requires 0 <= u < |tails| && arr[i] == arr[tails[u]]
    requires forall c :: 0 <= c < u ==> arr[tails[c]] < arr[i]
    ensures TailsInvariant(arr, q, tails, i + 1)
  {
    OptimalStep(arr, tails, tails, i);
  }

  /** One iteration of the main loop: position `i` either extends the
      longest tail or, found by binary search, replaces the first tail whose
      value is not below `arr[i]`, recording its predecessor in `p`. */
  method TailsStep(arr: seq<int>, p: array<int>, tails: seq<int>, i: int) returns (r: seq<int>)
    requires i < |arr| && TailsInvariant(arr, p[..], tails, i)
    modifies p
    ensures TailsInvariant(arr, p[..], r, i + 1)
  {
    ghost var q := p[..];
    var last := tails[|tails| - 1];
    if arr[i] > arr[last] {
      p[i] := last;
      r := tails + [i];
      assert p[..] == q[i := last];
      PushKeeps(arr, q, tails, i);
      return;
    }
    var u := 0;
    var v := |tails| - 1;
    while u < v
      invariant 0 <= u <= v < |tails|
      invariant forall c :: 0 <= c < u ==> arr[tails[c]] < arr[i]
      invariant arr[i] <= arr[tails[v]]
    {
      var c := (u + v) / 2;
      if arr[tails[c]] < arr[i] {
        u := c + 1;
      } else {
        v := c;
      }
    }
    r := tails;
    if arr[i] < arr[tails[u]] {
      if u > 0 {
        p[i] := tails[u - 1];
        assert p[..] == q[i := tails[u - 1]];
      }
      r := tails[u := i];
      ReplaceKeeps(arr, q, tails, i, u);
    } else {
      EqualKeeps(arr, q, tails, i, u);
    }
  }

  /** The final loop of `longestIncreasingSubsequence`: walking the
      predecessor chain back from the last tail overwrites `tails` with one
      increasing subsequence of the same length. */
  method Backtrack(arr: seq<int>, p: array<int>, tails: seq<int>) returns (result: seq<int>)
    requires |tails| > 0 && p.Length == |arr|
    requires Chain(arr, p[..], tails[|tails| - 1], |tails| - 1)
    ensures IncreasingSubsequence(arr, result) && |result| == |tails|
  {
    result := tails;
    var u := |result|;
    var v := result[u - 1];
    while u > 0
      invariant 0 <= u <= |result| == |tails|
      invariant u > 0 ==> Chain(arr, p[..], v, u - 1)
      invariant IncreasingSubsequence(arr, result[u..])
      invariant 0 < u < |result| ==> v < result[u] && arr[v] < arr[result[u]]
    {
      u := u - 1;
      result := result[u := v];
      v := p[v];
    }
    assert result[0..] == result;
  }

  /** `longestIncreasingSubsequence`: the positions of one longest strictly
      increasing subsequence of `arr`, computed with the tails array
      `result`, the predecessor array `p` (a copy of `arr` at the start) and
      a final backtrack through `p`. */
  method LongestIncreasingSubsequence(arr: seq<int>) returns (result: seq<int>)
    ensures IncreasingSubsequence(arr, result)
    ensures forall s :: IncreasingSubsequence(arr, s) ==> |s| <= |result|
    ensures |result| == 0 <==> |arr| == 0
  {
    var n := |arr|;
    var p := new int[n](k => if 0 <= k < n then arr[k] else 0);
    result := [];
    if n == 0 {
      forall s | IncreasingSubsequence(arr, s) ensures |s| <= 0 {
        IncreasingRank(arr, s);
      }
      return;
    }
    result := [0];
    assert TailsOptimal(arr, result, 1) by {
      forall s | IncreasingSubsequence(arr, s) && |s| > 0 && s[|s| - 1] < 1
        ensures |s| <= 1 && arr[result[|s| - 1]] <= arr[s[|s| - 1]]
      {
        IncreasingRank(arr, s);
      }
    }
    for i := 1 to n
      invariant TailsInvariant(arr, p[..], result, i)
    {
      result := TailsStep(arr, p, result, i);
    }
    var tails := result;
    result := Backtrack(arr, p, tails);
  }

  /* ---------------------------------------------------------------------- */
  /* Reconciliation                                                          */
  /* ---------------------------------------------------------------------- */

  /** The ids that occur in `s`. */
  function Ids(s: seq<Model>): set<Id> {
    set x | x in s :: x.id
  }

  /** The items of `s` whose id is in `ids` (when `keep`) or is not (when
      `!keep`), in their order in `s`. */
  function KeepByIds(s: seq<Model>, ids: set<Id>, keep: bool): (r: seq<Model>)
    ensures forall x {:trigger x in r} :: x in r <==> x in s && (x.id in ids) == keep
    ensures |r| <= |s|
  {
    if s == [] then []
    else
      assert s == s[..|s| - 1] + [s[|s| - 1]];
      KeepByIds(s[..|s| - 1], ids, keep) + (if (s[|s| - 1].id in ids) == keep then [s[|s| - 1]] else [])
  }

  /** The map `newArr.forEach((item, i) => map.set(item.id, i))` builds: each
      id of `s` to the last position holding it. */
  function IndexMap(s: seq<Model>): (m: map<Id, int>)
    ensures m.Keys == Ids(s)
    ensures forall id :: id in m ==> 0 <= m[id] < |s| && s[m[id]].id == id
    ensures forall id, j :: id in m && m[id] < j < |s| ==> s[j].id != id
  {
    if s == [] then map[]
    else
      assert s == s[..|s| - 1] + [s[|s| - 1]];
      IndexMap(s[..|s| - 1])[s[|s| - 1].id := |s| - 1]
  }

  /** The new position of each item of `s`, looked up in `m`. */
  function Positions(s: seq<Model>, m: map<Id, int>): (r: seq<int>)
    ensures |r| == |s|
    ensures forall k :: 0 <= k < |s| && s[k].id in m ==> r[k] == m[s[k].id]
  {
    if s == [] then []
    else
      var x := s[|s| - 1];
      Positions(s[..|s| - 1], m) + [if x.id in m then m[x.id] else -1]
  }

  /** The moves the third loop of `reconcile` pushes for the first `n`
      surviving items: those whose index is not in `lis`. */
  function MovesOf(survivors: seq<Model>, positions: seq<int>, lis: set<int>, n: nat): (r: seq<Move>)
    requires n <= |survivors| && n <= |positions|
    ensures forall mv :: mv in r ==> exists k :: 0 <= k < n && k !in lis && mv == Move(survivors[k], positions[k])
    ensures forall k :: 0 <= k < n && k !in lis ==> Move(survivors[k], positions[k]) in r
  {
    if n == 0 then []
    else MovesOf(survivors, positions, lis, n - 1) +
         (if n - 1 in lis then [] else [Move(survivors[n - 1], positions[n - 1])])
  }

  /** `new Set(s)`. */
  function SetOf(s: seq<int>): set<int> {
    set k | k in s
  }

  function Below(s: set<int>, n: int): set<int> {
    set x | x in s && 0 <= x < n
  }

  lemma {:induction false} MovesOfCount(survivors: seq<Model>, positions: seq<int>, lis: set<int>, n: nat)
    requires n <= |survivors| && n <= |positions|
    ensures |MovesOf(survivors, positions, lis, n)| + |Below(lis, n)| == n
  {
    if n > 0 {
      MovesOfCount(survivors, positions, lis, n - 1);
      if n - 1 in lis {
        assert Below(lis, n) == Below(lis, n - 1) + {n - 1};
      } else {
        assert Below(lis, n) == Below(lis, n - 1);
      }
    }
  }

  /** Positions of an increasing subsequence strictly increase pairwise. */
  lemma {:induction false} IncreasingIsSorted(arr: seq<int>, s: seq<int>)
    requires IncreasingSubsequence(arr, s)
    ensures forall a, b :: 0 <= a < b < |s| ==> s[a] < s[b]
    decreases |s|
  {
    if |s| > 1 {
      var s' := s[..|s| - 1];
      assert IncreasingSubsequence(arr, s') by {
        forall k | 0 < k < |s'| ensures s'[k - 1] < s'[k] && arr[s'[k - 1]] < arr[s'[k]] {
          assert s'[k - 1] == s[k - 1] && s'[k] == s[k];
        }
      }
      IncreasingIsSorted(arr, s');
      forall a, b | 0 <= a < b < |s| ensures s[a] < s[b] {
        if b < |s| - 1 {
          assert s[a] == s'[a] && s[b] == s'[b];
        } else if a < b - 1 {
          assert s[a] == s'[a] && s[b - 1] == s'[b - 1];
        }
      }
    }
  }

  lemma {:induction false} SortedSetSize(s: seq<int>)
    requires forall a, b :: 0 <= a < b < |s| ==> s[a] < s[b]
    ensures |SetOf(s)| == |s|
    decreases |s|
  {
    if s != [] {
      var s' := s[..|s| - 1];
      SortedSetSize(s');
      assert SetOf(s) == SetOf(s') + {s[|s| - 1]};
      assert s[|s| - 1] !in s' by {
        forall k | 0 <= k < |s'| ensures s'[k] != s[|s| - 1] {
          assert s'[k] == s[k];
        }
      }
    }
  }

  /** Keeping and dropping by the same id set splits `s`. */
  lemma {:induction false} KeepPartition(s: seq<Model>, ids: set<Id>)
    ensures |KeepByIds(s, ids, true)| + |KeepByIds(s, ids, false)| == |s|
  {
    if s != [] {
      KeepPartition(s[..|s| - 1], ids);
    }
  }

  /** Dropping ids that no item carries keeps everything, and keeping them keeps nothing. */
  lemma {:induction false} KeepDisjoint(s: seq<Model>, ids: set<Id>)
    requires Ids(s) !! ids
    ensures KeepByIds(s, ids, false) == s
    ensures KeepByIds(s, ids, true) == []
  {
    if s != [] {
      var s' := s[..|s| - 1];
      assert Ids(s') <= Ids(s);
      KeepDisjoint(s', ids);
      assert s[|s| - 1].id in Ids(s);
      assert s == s' + [s[|s| - 1]];
    }
  }

  /** One move per survivor off `lis`, and no fewer for any other
      increasing subsequence of the new positions. */
  lemma MovesCount(survivors: seq<Model>, positions: seq<int>, lis: seq<int>)
    requires |positions| == |survivors|
    requires IncreasingSubsequence(positions, lis)
    requires forall s :: IncreasingSubsequence(positions, s) ==> |s| <= |lis|
    ensures var moves := MovesOf(survivors, positions, SetOf(lis), |survivors|);
            && |moves| == |survivors| - |lis|
            && (forall s :: IncreasingSubsequence(positions, s) ==> |moves| <= |survivors| - |s|)
  {
    var lisSet := SetOf(lis);
    MovesOfCount(survivors, positions, lisSet, |survivors|);
    IncreasingIsSorted(positions, lis);
    SortedSetSize(lis);
    assert Below(lisSet, |survivors|) == lisSet;
  }

  /** Each move carries a surviving old item and the position in `newArr`
      that holds its id. */
  lemma MovesTargets(oldArr: seq<Model>, newArr: seq<Model>, survivors: seq<Model>, positions: seq<int>, lisSet: set<int>, moves: seq<Move>)
    requires survivors == KeepByIds(oldArr, Ids(newArr), true)
    requires positions == Positions(survivors, IndexMap(newArr))
    requires moves == MovesOf(survivors, positions, lisSet, |survivors|)
    ensures forall mv :: mv in moves ==>
              mv.item in oldArr && 0 <= mv.to < |newArr| && newArr[mv.to].id == mv.item.id
  {
    var m := IndexMap(newArr);
    forall mv | mv in moves
      ensures mv.item in oldArr && 0 <= mv.to < |newArr| && newArr[mv.to].id == mv.item.id
    {
      var k :| 0 <= k < |survivors| && k !in lisSet && mv == Move(survivors[k], positions[k]);
      var x := survivors[k];
      assert x in survivors;
      assert x.id in m;
      assert positions[k] == m[x.id];
    }
  }

  /** Step 0 of `reconcile`: each id of `newArr` to its (last) position. */
  method NewIndexMap(newArr: seq<Model>) returns (newIndexMap: map<Id, int>)
    ensures newIndexMap == IndexMap(newArr)
  {
    newIndexMap := map[];
    for i := 0 to |newArr|
      invariant newIndexMap == IndexMap(newArr[..i])
    {
      assert newArr[..i + 1][..i] == newArr[..i];
      newIndexMap := newIndexMap[newArr[i].id := i];
    }
    assert newArr[..|newArr|] == newArr;
  }

  /** Step 1 of `reconcile`: the old items whose id is gone are removed; the
      others survive, each with its new position. */
  method SplitOld(oldArr: seq<Model>, newIndexMap: map<Id, int>)
    returns (removes: seq<Model>, oldItemsStillPresent: seq<Model>, posSeq: seq<int>)
    ensures removes == KeepByIds(oldArr, newIndexMap.Keys, false)
    ensures oldItemsStillPresent == KeepByIds(oldArr, newIndexMap.Keys, true)
    ensures posSeq == Positions(oldItemsStillPresent, newIndexMap)
  {
    removes, oldItemsStillPresent, posSeq := [], [], [];
    for j := 0 to |oldArr|
      invariant removes == KeepByIds(oldArr[..j], newIndexMap.Keys, false)
      invariant oldItemsStillPresent == KeepByIds(oldArr[..j], newIndexMap.Keys, true)
      invariant posSeq == Positions(oldItemsStillPresent, newIndexMap)
    {
      assert oldArr[..j + 1][..j] == oldArr[..j];
      var oldItem := oldArr[j];
      if oldItem.id !in newIndexMap {
        removes := removes + [oldItem];
      } else {
        posSeq := posSeq + [newIndexMap[oldItem.id]];
        oldItemsStillPresent := oldItemsStillPresent + [oldItem];
      }
    }
    assert oldArr[..|oldArr|] == oldArr;
  }

  /** Step 3 of `reconcile`: a move for every survivor whose index is not in `lisSet`. */
  method CollectMoves(oldItemsStillPresent: seq<Model>, posSeq: seq<int>, lisSet: set<int>) returns (moves: seq<Move>)
    requires |posSeq| == |oldItemsStillPresent|
    ensures moves == MovesOf(oldItemsStillPresent, posSeq, lisSet, |oldItemsStillPresent|)
  {
    moves := [];
    for k := 0 to |oldItemsStillPresent|
      invariant moves == MovesOf(oldItemsStillPresent, posSeq, lisSet, k)
    {
      if k !in lisSet {
        moves := moves + [Move(oldItemsStillPresent[k], posSeq[k])];
      }
    }
  }

  /** Step 4 of `reconcile`: the new items whose id no old item carries. */
  method CollectInserts(oldArr: seq<Model>, newArr: seq<Model>) returns (inserts: seq<Model>)
    ensures inserts == KeepByIds(newArr, Ids(oldArr), false)
  {
    var oldIds := set x | x in oldArr :: x.id;
    inserts := [];
    for k := 0 to |newArr|
      invariant inserts == KeepByIds(newArr[..k], oldIds, false)
    {
      assert newArr[..k + 1][..k] == newArr[..k];
      if newArr[k].id !in oldIds {
        inserts := inserts + [newArr[k]];
      }
    }
    assert newArr[..|newArr|] == newArr;
  }

  /** `reconcile`: `removes` are the old items whose id is gone, `inserts`
      the new items whose id is new, and `moves` the surviving items off one
      longest increasing subsequence `lis` of their new positions, each with
      its position in `newArr`; so no patch built on another increasing
      subsequence moves fewer items. */
  method Reconcile(oldArr: seq<Model>, newArr: seq<Model>) returns (patch: Patch, ghost lis: seq<int>)
    ensures patch.removes == KeepByIds(oldArr, Ids(newArr), false)
    ensures patch.inserts == KeepByIds(newArr, Ids(oldArr), false)
    ensures |patch.removes| + |KeepByIds(oldArr, Ids(newArr), true)| == |oldArr|
    ensures var survivors := KeepByIds(oldArr, Ids(newArr), true);
            var positions := Positions(survivors, IndexMap(newArr));
            && IncreasingSubsequence(positions, lis)
            && (forall s :: IncreasingSubsequence(positions, s) ==> |s| <= |lis|)
            && patch.moves == MovesOf(survivors, positions, SetOf(lis), |survivors|)
            && |patch.moves| == |survivors| - |lis|
            && (forall s :: IncreasingSubsequence(positions, s) ==> |patch.moves| <= |survivors| - |s|)
    ensures forall mv :: mv in patch.moves ==>
              mv.item in oldArr && 0 <= mv.to < |newArr| && newArr[mv.to].id == mv.item.id
  {
    var newIndexMap := NewIndexMap(newArr);
    var removes, oldItemsStillPresent, posSeq := SplitOld(oldArr, newIndexMap);
    var lisResult := LongestIncreasingSubsequence(posSeq);
    var lisSet := SetOf(lisResult);
    var moves := CollectMoves(oldItemsStillPresent, posSeq, lisSet);
    var inserts := CollectInserts(oldArr, newArr);
    patch := Patch(removes, inserts, moves);
    lis := lisResult;
    KeepPartition(oldArr, Ids(newArr));
    MovesCount(oldItemsStillPresent, posSeq, lisResult);
    assert forall mv :: mv in moves ==>
             mv.item in oldArr && 0 <= mv.to < |newArr| && newArr[mv.to].id == mv.item.id by {
      MovesTargets(oldArr, newArr, oldItemsStillPresent, posSeq, lisSet, moves);
    }
  }

  /** Two arrays with no id in common: everything old is removed, everything
      new inserted, and nothing survives to be moved. */
  lemma DisjointPatch(oldArr: seq<Model>, newArr: seq<Model>)
    requires Ids(oldArr) !! Ids(newArr)
    ensures KeepByIds(oldArr, Ids(newArr), false) == oldArr
    ensures KeepByIds(newArr, Ids(oldArr), false) == newArr
    ensures var survivors := KeepByIds(oldArr, Ids(newArr), true);
            survivors == [] && MovesOf(survivors, Positions(survivors, IndexMap(newArr)), {}, |survivors|) == []
  {
    KeepDisjoint(oldArr, Ids(newArr));
    KeepDisjoint(newArr, Ids(oldArr));
  }

  /* ---------------------------------------------------------------------- */
  /* Plain diffs                                                             */
  /* ---------------------------------------------------------------------- */

  datatype Diff<T> = Diff(added: seq<T>, removed: seq<T>)

  /** `s.filter(item => !other.has(item))`. */
  function NotIn<T(==)>(s: seq<T>, other: seq<T>): seq<T> {
    if s == [] then []
    else (if s[0] in other then [] else [s[0]]) + NotIn(s[1..], other)
  }

  /** The filter keeps exactly the elements of `s` absent from `other`. */
  lemma {:induction false} NotInMembers<T>(s: seq<T>, other: seq<T>)
    ensures forall x :: x in NotIn(s, other) <==> x in s && x !in other
    decreases |s|
  {
    if s != [] {
      assert s == [s[0]] + s[1..];
      NotInMembers(s[1..], other);
    }
  }

  /** The filter keeps order: filtering a concatenation filters each part. */
  lemma {:induction false} NotInConcat<T>(s: seq<T>, t: seq<T>, other: seq<T>)
    ensures NotIn(s + t, other) == NotIn(s, other) + NotIn(t, other)
    decreases |s|
  {
    if s == [] {
      assert s + t == t;
    } else {
      assert (s + t)[0] == s[0] && (s + t)[1..] == s[1..] + t;
      NotInConcat(s[1..], t, other);
    }
  }

  /** `compareArrays`: the new elements not in the old array and the old
      elements not in the new one, each in its array's order. */
  function CompareArrays<T(==,!new)>(oldArray: seq<T>, newArray: seq<T>): (r: Diff<T>)
    ensures forall x :: x in r.added <==> x in newArray && x !in oldArray
    ensures forall x :: x in r.removed <==> x in oldArray && x !in newArray
  {
    NotInMembers(newArray, oldArray);
    NotInMembers(oldArray, newArray);
    Diff(NotIn(newArray, oldArray), NotIn(oldArray, newArray))
  }

  /** The example in the documentation of `compareArrays`. */
  lemma CompareArraysExample()
    ensures CompareArrays([1, 2, 3, 4], [3, 4, 5, 6]) == Diff([5, 6], [1, 2])
  {
    AddedExample();
    RemovedExample();
  }

  lemma AddedExample()
    ensures NotIn([3, 4, 5, 6], [1, 2, 3, 4]) == [5, 6]
  {
    assert [3, 4, 5, 6][1..] == [4, 5, 6];
    assert [4, 5, 6][1..] == [5, 6];
    assert [5, 6][1..] == [6];
    assert [6][1..] == [];
  }

  lemma RemovedExample()
    ensures NotIn([1, 2, 3, 4], [3, 4, 5, 6]) == [1, 2]
  {
    assert [1, 2, 3, 4][1..] == [2, 3, 4];
    assert [2, 3, 4][1..] == [3, 4];
    assert [3, 4][1..] == [4];
    assert [4][1..] == [];
  }

  /** The keys `s.map(item => item[idKey])` holds. */
  function KeySet<T(==), K(==)>(s: seq<T>, key: T -> K): set<K> {
    set x | x in s :: key(x)
  }

  /** `new Map(s.map(item => [item[idKey], item]))`: each key to the last item carrying it. */
  function LastByKey<T, K(==,!new)>(s: seq<T>, key: T -> K): (m: map<K, T>)
    ensures m.Keys == KeySet(s, key)
    ensures forall k :: k in m ==> m[k] in s && key(m[k]) == k
  {
    if s == [] then map[]
    else
      assert s == s[..|s| - 1] + [s[|s| - 1]];
      LastByKey(s[..|s| - 1], key)[key(s[|s| - 1]) := s[|s| - 1]]
  }

  /** The items of `s` whose key is in `keys` (when `keep`) or not (when `!keep`). */
  function KeepByKey<T(!new), K(==)>(s: seq<T>, key: T -> K, keys: set<K>, keep: bool): (r: seq<T>)
    ensures forall x :: x in r <==> x in s && (key(x) in keys) == keep
  {
    if s == [] then []
    else
      assert s == s[..|s| - 1] + [s[|s| - 1]];
      KeepByKey(s[..|s| - 1], key, keys, keep) + (if (key(s[|s| - 1]) in keys) == keep then [s[|s| - 1]] else [])
  }

  /** The items of `s` whose key is in `olds` but mapped there to a different object. */
  function ChangedIn<T(==,!new), K(!new)>(s: seq<T>, key: T -> K, olds: map<K, T>): (r: seq<T>)
    ensures forall x :: x in r <==> x in s && key(x) in olds && olds[key(x)] != x
  {
    if s == [] then []
    else
      var x := s[|s| - 1];
      assert s == s[..|s| - 1] + [x];
      ChangedIn(s[..|s| - 1], key, olds) + (if key(x) in olds && olds[key(x)] != x then [x] else [])
  }

  /** `compareArraysById`: `removed` are the old items whose key is gone,
      `added` the new items whose key is new, and `changed` the new items
      whose key was present but under another object. */
  method CompareArraysById<T(==,!new), K(==,!new)>(oldArray: seq<T>, newArray: seq<T>, key: T -> K)
    returns (added: seq<T>, removed: seq<T>, changed: seq<T>)
    ensures removed == KeepByKey(oldArray, key, KeySet(newArray, key), false)
    ensures added == KeepByKey(newArray, key, KeySet(oldArray, key), false)
    ensures changed == ChangedIn(newArray, key, LastByKey(oldArray, key))
    ensures forall x :: x in changed ==> exists y :: y in oldArray && key(y) == key(x) && y != x
    ensures forall x :: x in newArray ==> x in added || x in changed || x in oldArray
  {
    var oldIds := LastByKey(oldArray, key);
    var newIds := KeySet(newArray, key);
    changed := [];
    removed := KeepByKey(oldArray, key, newIds, false);
    added := [];
    for index := 0 to |newArray|
      invariant added == KeepByKey(newArray[..index], key, oldIds.Keys, false)
      invariant changed == ChangedIn(newArray[..index], key, oldIds)
    {
      assert newArray[..index + 1][..index] == newArray[..index];
      var item := newArray[index];
      if key(item) in oldIds {
        if item != oldIds[key(item)] {
          changed := changed + [item];
        }
      } else {
        added := added + [item];
      }
    }
    assert newArray[..|newArray|] == newArray;
    forall x | x in changed ensures exists y :: y in oldArray && key(y) == key(x) && y != x {
      assert oldIds[key(x)] in oldArray;
    }
  }
}
