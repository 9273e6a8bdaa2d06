/** Value types shared by every component of the virtual list engine. */
module Common {

  datatype Option<+T> = None | Some(value: T)

  /** The `id` every item model carries. */
  type Id = string

  /** An item model. `ref` stands for the object reference, so two models are
      the same JavaScript object (`a === b`) exactly when they are equal here. */
  datatype Model = Model(id: Id, ref: nat)

  /** Sum of a sequence of heights. */
  function Sum(s: seq<int>): int {
    if s == [] then 0 else Sum(s[..|s| - 1]) + s[|s| - 1]
  }

  lemma {:induction false} SumAppend(s: seq<int>, t: seq<int>)
    ensures Sum(s + t) == Sum(s) + Sum(t)
    decreases |t|
  {
    if t == [] {
      assert s + t == s;
    } else {
      assert (s + t)[..|s + t| - 1] == s + t[..|t| - 1];
      SumAppend(s, t[..|t| - 1]);
    }
  }

  /** The sum of a run of equal heights. */
  lemma {:induction false} SumConst(s: seq<int>, c: int)
    requires forall i :: 0 <= i < |s| ==> s[i] == c
    ensures Sum(s) == |s| * c
  {
    if s != [] {
      SumConst(s[..|s| - 1], c);
    }
  }

  /** With no negative height, a longer prefix never sums to less. */
  lemma {:induction false} SumPrefixMonotone(s: seq<int>, i: nat, j: nat)
    requires i <= j <= |s|
    requires forall k :: 0 <= k < |s| ==> s[k] >= 0
    ensures Sum(s[..i]) <= Sum(s[..j])
    decreases j
  {
    if i < j {
      SumPrefixMonotone(s, i, j - 1);
      assert s[..j][..j - 1] == s[..j - 1];
    }
  }

  /** `lo <= x < hi`: `x` lies in the half-open interval. */
  predicate Within(x: int, lo: int, hi: int) {
    lo <= x < hi
  }

  /** `shouldRender(a, b, top, bottom)`: the half-open intervals `[a, b)` and
      `[top, bottom)` overlap, tested with strict comparisons only. */
  predicate ShouldRender(a: int, b: int, top: int, bottom: int) {
    a < bottom && b > top
  }

  /** For non-empty intervals the test is exactly "some position lies in
      both". */
  lemma ShouldRenderOverlap(a: int, b: int, top: int, bottom: int)
    requires a < b && top < bottom
    ensures ShouldRender(a, b, top, bottom) <==> exists x :: Within(x, a, b) && Within(x, top, bottom)
  {
    if ShouldRender(a, b, top, bottom) {
      var x := if a < top then top else a;
      assert Within(x, a, b) && Within(x, top, bottom);
    }
  }

  /** Occurrences of `x` are removed from `s`; the others keep their order. */
  function Without<K(==,!new)>(s: seq<K>, x: K): (r: seq<K>)
    ensures forall y :: y in r <==> y in s && y != x
    ensures |r| <= |s|
  {
    if s == [] then []
    else (if s[0] == x then [] else [s[0]]) + Without(s[1..], x)
  }

  /** No element occurs twice. The pairwise facts are reached through
      `Differ`, so that they are drawn only where a proof asks for them. */
  ghost predicate Distinct<K>(s: seq<K>) {
    forall i, j :: 0 <= i < j < |s| ==> Differ(s, i, j)
  }

  ghost predicate Differ<K>(s: seq<K>, i: int, j: int)
    requires 0 <= i < |s| && 0 <= j < |s|
  {
    s[i] != s[j]
  }

  lemma DistinctAt<K>(s: seq<K>, i: int, j: int)
    requires Distinct(s) && 0 <= i < |s| && 0 <= j < |s| && i != j
    ensures s[i] != s[j]
  {
    if i < j {
      assert Differ(s, i, j);
    } else {
      assert Differ(s, j, i);
    }
  }

  lemma DistinctCons<K>(x: K, t: seq<K>)
    requires Distinct(t) && x !in t
    ensures Distinct([x] + t)
  {
    var r := [x] + t;
    forall i, j | 0 <= i < j < |r| ensures Differ(r, i, j) {
      if i == 0 {
        assert r[j] == t[j - 1];
      } else {
        assert Differ(t, i - 1, j - 1);
      }
    }
  }

  lemma DistinctSnoc<K>(t: seq<K>, x: K)
    requires Distinct(t) && x !in t
    ensures Distinct(t + [x])
  {
    var r := t + [x];
    forall i, j | 0 <= i < j < |r| ensures Differ(r, i, j) {
      if j == |t| {
        assert r[i] == t[i];
      } else {
        assert Differ(t, i, j);
      }
    }
  }

  lemma DistinctTail<K>(s: seq<K>)
    requires Distinct(s) && s != []
    ensures Distinct(s[1..]) && s[0] !in s[1..]
  {
    var t := s[1..];
    forall i, j | 0 <= i < j < |t| ensures Differ(t, i, j) {
      assert Differ(s, i + 1, j + 1);
    }
    forall j | 0 <= j < |t| ensures t[j] != s[0] {
      assert Differ(s, 0, j + 1);
    }
  }

  lemma {:induction false} WithoutDistinct<K(!new)>(s: seq<K>, x: K)
    requires Distinct(s)
    ensures Distinct(Without(s, x))
    decreases |s|
  {
    if s != [] {
      DistinctTail(s);
      WithoutDistinct(s[1..], x);
      var w := Without(s[1..], x);
      if s[0] != x {
        DistinctCons(s[0], w);
      } else {
        assert Without(s, x) == [] + w == w;
      }
    }
  }

  /** JavaScript's `Map`: the keys in insertion order and the value of each.
      Setting a key that is present keeps its place in the order. */
  datatype OMap<K(==,!new), V> = OMap(keys: seq<K>, values: map<K, V>) {

    ghost predicate Valid() {
      Distinct(keys) && (forall k :: k in values <==> k in keys)
    }

    predicate Has(k: K) {
      k in values
    }

    function Get(k: K): Option<V> {
      if k in values then Some(values[k]) else None
    }

    function Set(k: K, v: V): (r: OMap<K, V>)
      ensures Valid() ==> r.Valid()
      ensures r.Has(k) && r.Get(k) == Some(v)
      ensures forall j :: j != k ==> r.Get(j) == Get(j)
      ensures Has(k) ==> r.keys == keys
      ensures !Has(k) ==> r.keys == keys + [k]
    {
      if k in values then OMap(keys, values[k := v])
      else
        DistinctSnocIf(keys, k);
        OMap(keys + [k], values[k := v])
    }

    function Delete(k: K): (r: OMap<K, V>)
      ensures Valid() ==> r.Valid()
      ensures !r.Has(k)
      ensures forall j :: j != k ==> r.Get(j) == Get(j)
      ensures r.keys == Without(keys, k)
    {
      WithoutDistinctIf(keys, k);
      OMap(Without(keys, k), values - {k})
    }

    function Size(): nat {
      |keys|
    }
  }

  lemma DistinctSnocIf<K>(t: seq<K>, x: K)
    ensures Distinct(t) && x !in t ==> Distinct(t + [x])
  {
    if Distinct(t) && x !in t {
      DistinctSnoc(t, x);
    }
  }

  lemma WithoutDistinctIf<K(!new)>(s: seq<K>, x: K)
    ensures Distinct(s) ==> Distinct(Without(s, x))
  {
    if Distinct(s) {
      WithoutDistinct(s, x);
    }
  }

  function EmptyMap<K(==,!new), V>(): (r: OMap<K, V>)
    ensures r.Valid() && r.Size() == 0
    ensures forall k :: !r.Has(k)
  {
    OMap([], map[])
  }
}
