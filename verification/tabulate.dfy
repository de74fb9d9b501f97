/** The array operations the two cross-tabulation scripts take from NumPy,
    on flattened layers `seq<int>`:
    - `np.delete(keep, np.where(mask == v))` and its complement
      `np.delete(keep, np.where(mask != v))`;
    - `np.unique(s, return_counts=True)`: ascending distinct values and the
      number of times each occurs;
    - `np.sum`. */
module Tabulate {

  predicate StrictlyIncreasing(s: seq<int>) {
    forall i, j :: 0 <= i < j < |s| ==> s[i] < s[j]
  }

  /** Samples of two layers taken position by position. */
  function Zip(a: seq<int>, b: seq<int>): (r: seq<(int, int)>)
    requires |a| == |b|
    ensures |r| == |a|
    ensures forall i :: 0 <= i < |a| ==> r[i] == (a[i], b[i])
  {
    seq(|a|, i requires 0 <= i < |a| => (a[i], b[i]))
  }

  lemma ZipCons(a: seq<int>, b: seq<int>)
    requires |a| == |b| && |a| > 0
    ensures Zip(a, b) == [(a[0], b[0])] + Zip(a[1..], b[1..])
  {
    assert forall i :: 1 <= i < |a| ==> Zip(a, b)[i] == Zip(a[1..], b[1..])[i - 1];
  }

  function Sum(xs: seq<int>): int
    decreases |xs|
  {
    if |xs| == 0 then 0 else xs[0] + Sum(xs[1..])
  }

  // ---------------------------------------------------------------------
  // Masked deletion
  // ---------------------------------------------------------------------

  /** `np.delete(keep, np.where(mask == v))`: the entries of `keep` at the
      positions where `mask` is not `v`, in order. The two arrays always
      come from one raster, so they have the same length. */
  function DropWhere(keep: seq<int>, mask: seq<int>, v: int): (r: seq<int>)
    requires |keep| == |mask|
    ensures |r| == |keep| - multiset(mask)[v]
    decreases |keep|
  {
    if |keep| == 0 then []
    else
      assert mask == [mask[0]] + mask[1..];
      (if mask[0] == v then [] else [keep[0]]) + DropWhere(keep[1..], mask[1..], v)
  }

  /** `np.delete(keep, np.where(mask != v))`: the entries of `keep` at the
      positions where `mask` is `v`, in order. */
  function KeepWhere(keep: seq<int>, mask: seq<int>, v: int): (r: seq<int>)
    requires |keep| == |mask|
    ensures |r| == multiset(mask)[v]
    decreases |keep|
  {
    if |keep| == 0 then []
    else
      assert mask == [mask[0]] + mask[1..];
      (if mask[0] == v then [keep[0]] else []) + KeepWhere(keep[1..], mask[1..], v)
  }

  /** The position-wise pairs whose first component is not `v`, in order. */
  function DropPairs(ps: seq<(int, int)>, v: int): seq<(int, int)>
    decreases |ps|
  {
    if |ps| == 0 then []
    else (if ps[0].0 == v then [] else [ps[0]]) + DropPairs(ps[1..], v)
  }

  /** Removing the positions where the mask layer holds `v` from both layers
      keeps them aligned: the surviving pairs are exactly the original pairs
      whose mask value is not `v`, in their original order. */
  lemma {:induction false} DropWhereAligned(a: seq<int>, b: seq<int>, v: int)
    requires |a| == |b|
    ensures |DropWhere(a, a, v)| == |DropWhere(b, a, v)|
    ensures Zip(DropWhere(a, a, v), DropWhere(b, a, v)) == DropPairs(Zip(a, b), v)
    decreases |a|
  {
    if |a| > 0 {
      DropWhereAligned(a[1..], b[1..], v);
      ZipCons(a, b);
    }
  }

  /** Removing a value from a layer by its own mask removes every copy of
      it and nothing else. */
  /** Dropping the pairs whose first value is `v` leaves the count of
      every other pair as it was. */
  lemma {:induction false} DropPairsCount(ps: seq<(int, int)>, v: int, p: (int, int))
    requires p.0 != v
    ensures multiset(DropPairs(ps, v))[p] == multiset(ps)[p]
    decreases |ps|
  {
    if |ps| > 0 {
      DropPairsCount(ps[1..], v, p);
      assert ps == [ps[0]] + ps[1..];
      CountCons(ps[0], ps[1..], p);
      if ps[0].0 != v {
        CountCons(ps[0], DropPairs(ps[1..], v), p);
      } else {
        assert DropPairs(ps, v) == DropPairs(ps[1..], v);
      }
    }
  }

  lemma {:induction false} DropWhereSelf(a: seq<int>, v: int)
    ensures multiset(DropWhere(a, a, v)) == multiset(a)[v := 0]
    decreases |a|
  {
    if |a| > 0 {
      DropWhereSelf(a[1..], v);
      assert a == [a[0]] + a[1..];
    }
  }

  /** The values left after removing `v` from a layer by its own mask. */
  lemma DropWhereMembers(a: seq<int>, v: int)
    ensures forall x :: x in DropWhere(a, a, v) <==> x in a && x != v
  {
    DropWhereSelf(a, v);
    forall x
      ensures x in DropWhere(a, a, v) <==> x in a && x != v
    {
      assert x in DropWhere(a, a, v) <==> x in multiset(DropWhere(a, a, v));
      assert x in a <==> x in multiset(a);
    }
  }

  /** The values of `b` at the positions where `a` is `v`, counted per value,
      are the number of positions holding the pair `(v, w)`. */
  lemma {:induction false} KeepWherePairs(b: seq<int>, a: seq<int>, v: int, w: int)
    requires |a| == |b|
    ensures multiset(KeepWhere(b, a, v))[w] == multiset(Zip(a, b))[(v, w)]
    decreases |a|
  {
    if |a| > 0 {
      var kept := KeepWhere(b[1..], a[1..], v);
      var pairs := Zip(a[1..], b[1..]);
      KeepWherePairs(b[1..], a[1..], v, w);
      ZipCons(a, b);
      CountCons((a[0], b[0]), pairs, (v, w));
      if a[0] == v {
        assert KeepWhere(b, a, v) == [b[0]] + kept;
        CountCons(b[0], kept, w);
      } else {
        assert KeepWhere(b, a, v) == kept;
      }
    }
  }

  lemma CountCons<T>(x: T, s: seq<T>, y: T)
    ensures multiset([x] + s)[y] == multiset(s)[y] + if x == y then 1 else 0
  {
    assert multiset([x] + s) == multiset{x} + multiset(s);
  }

  /** Every value kept at a mask position is a value of the kept layer. */
  lemma {:induction false} KeepWhereSubset(b: seq<int>, a: seq<int>, v: int)
    requires |a| == |b|
    ensures forall x :: x in KeepWhere(b, a, v) ==> x in b
    decreases |a|
  {
    if |a| > 0 {
      KeepWhereSubset(b[1..], a[1..], v);
    }
  }

  // ---------------------------------------------------------------------
  // np.unique
  // ---------------------------------------------------------------------

  function InsertSorted(x: int, u: seq<int>): (r: seq<int>)
    requires StrictlyIncreasing(u)
    ensures StrictlyIncreasing(r)
    ensures forall y :: y in r <==> y == x || y in u
    decreases |u|
  {
    if |u| == 0 then [x]
    else if x < u[0] then [x] + u
    else if x == u[0] then u
    else
      var t := InsertSorted(x, u[1..]);
      assert forall k :: 0 <= k < |t| ==> u[0] < t[k] by {
        forall k | 0 <= k < |t|
          ensures u[0] < t[k]
        {
          assert t[k] in t;
          if t[k] != x {
            var m :| 0 <= m < |u[1..]| && u[1..][m] == t[k];
            assert u[m + 1] == t[k];
          }
        }
      }
      [u[0]] + t
  }

  /** The ascending distinct values of `s` (first output of `np.unique`). */
  function Unique(s: seq<int>): (r: seq<int>)
    ensures StrictlyIncreasing(r)
    ensures forall y :: y in r <==> y in s
    decreases |s|
  {
    if |s| == 0 then []
    else
      assert forall y :: y in s <==> y in s[..|s| - 1] || y == s[|s| - 1];
      InsertSorted(s[|s| - 1], Unique(s[..|s| - 1]))
  }

  /** Number of entries of `s` equal to `v`, counted one by one. */
  function Occurrences(s: seq<int>, v: int): (n: nat)
    ensures n == multiset(s)[v]
    decreases |s|
  {
    if |s| == 0 then 0
    else
      assert s == [s[0]] + s[1..];
      (if s[0] == v then 1 else 0) + Occurrences(s[1..], v)
  }

  /** The occurrence count of each value of `u` in `s`, in the order of `u`. */
  function CountEach(s: seq<int>, u: seq<int>): (r: seq<nat>)
    ensures |r| == |u|
    ensures forall i :: 0 <= i < |u| ==> r[i] == multiset(s)[u[i]]
    decreases |u|
  {
    if |u| == 0 then [] else [Occurrences(s, u[0])] + CountEach(s, u[1..])
  }

  /** The counts `np.unique(s, return_counts=True)` returns: one positive
      count per distinct value, aligned with `Unique(s)`. */
  function Frequencies(s: seq<int>): (r: seq<nat>)
    ensures |r| == |Unique(s)|
    ensures forall i :: 0 <= i < |r| ==> r[i] == multiset(s)[Unique(s)[i]]
    ensures forall i :: 0 <= i < |r| ==> r[i] >= 1
  {
    var u := Unique(s);
    assert forall i :: 0 <= i < |u| ==> u[i] in s by {
      forall i | 0 <= i < |u| ensures u[i] in s {
        assert u[i] in u;
      }
    }
    CountEach(s, u)
  }

  // ---------------------------------------------------------------------
  // Totals
  // ---------------------------------------------------------------------

  /** Sum of the multiplicities in `m` of the values listed in `u`. */
  function SumOver(m: multiset<int>, u: seq<int>): int
    decreases |u|
  {
    if |u| == 0 then 0 else m[u[0]] + SumOver(m, u[1..])
  }

  /** A sequence listing the multiplicities of the values of `u`, in order,
      sums to the total over `u`. */
  lemma {:induction false} SumPointwise(xs: seq<int>, m: multiset<int>, u: seq<int>)
    requires |xs| == |u|
    requires forall i :: 0 <= i < |u| ==> xs[i] == m[u[i]]
    ensures Sum(xs) == SumOver(m, u)
    decreases |u|
  {
    if |u| > 0 {
      SumPointwise(xs[1..], m, u[1..]);
    }
  }

  /** Adding one sample raises the total over a distinct list by one when
      the list holds its value and leaves it alone otherwise. */
  lemma {:induction false} SumOverAdd(m: multiset<int>, u: seq<int>, y: int)
    requires StrictlyIncreasing(u)
    ensures SumOver(m + multiset{y}, u) == SumOver(m, u) + (if y in u then 1 else 0)
    decreases |u|
  {
    if |u| > 0 {
      SumOverAdd(m, u[1..], y);
      assert y in u <==> y == u[0] || y in u[1..];
      if y == u[0] {
        assert y !in u[1..];
      }
    }
  }

  /** Summed over a distinct list that covers every value of `s`, the
      per-value counts add up to the length of `s`. */
  lemma {:induction false} SumOverCover(s: seq<int>, u: seq<int>)
    requires StrictlyIncreasing(u)
    requires forall x :: x in s ==> x in u
    ensures SumOver(multiset(s), u) == |s|
    decreases |s|
  {
    if |s| == 0 {
      SumOverEmpty(u);
    } else {
      var init := s[..|s| - 1];
      assert s == init + [s[|s| - 1]];
      SumOverCover(init, u);
      SumOverAdd(multiset(init), u, s[|s| - 1]);
    }
  }

  lemma {:induction false} SumOverEmpty(u: seq<int>)
    ensures SumOver(multiset{}, u) == 0
    decreases |u|
  {
    if |u| > 0 {
      SumOverEmpty(u[1..]);
    }
  }

  /** `np.sum(np.unique(s, return_counts=True)[1]) == len(s)`. */
  lemma SumFrequencies(s: seq<int>)
    ensures Sum(Frequencies(s)) == |s|
  {
    SumPointwise(Frequencies(s), multiset(s), Unique(s));
    SumOverCover(s, Unique(s));
  }
}
