/** Lists laid out block after block, as the scripts build their import
    lists: entry `k` of block `i` sits at `i * g + k` when every block
    holds `g` entries. */
module Blocks {
  /** The blocks one after the other. */
  function Flatten<T>(xss: seq<seq<T>>): seq<T>
    decreases |xss|
  {
    if |xss| == 0 then [] else xss[0] + Flatten(xss[1..])
  }

  /** The position of entry `k` of block `i` when every block holds `g`
      entries. */
  function Slot(i: nat, g: nat, k: nat): nat {
    i * g + k
  }

  /** Blocks of `g` entries each flatten to `|xss| * g` entries, entry `k`
      of block `i` landing at `i * g + k`. */
  lemma {:induction false} FlattenAt<T>(xss: seq<seq<T>>, g: nat, i: nat, k: nat)
    requires forall j :: 0 <= j < |xss| ==> |xss[j]| == g
    requires i < |xss| && k < g
    ensures |Flatten(xss)| == |xss| * g
    ensures i * g + k < |Flatten(xss)| && Flatten(xss)[i * g + k] == xss[i][k]
    decreases |xss|
  {
    FlattenLength(xss, g);
    MulBound(i, k, |xss|, g);
    var rest := xss[1..];
    if i > 0 {
      FlattenAt(rest, g, i - 1, k);
      MulStep(i, g);
      assert Flatten(xss)[g + ((i - 1) * g + k)] == Flatten(rest)[(i - 1) * g + k];
    }
  }

  lemma {:induction false} FlattenLength<T>(xss: seq<seq<T>>, g: nat)
    requires forall j :: 0 <= j < |xss| ==> |xss[j]| == g
    ensures |Flatten(xss)| == |xss| * g
    decreases |xss|
  {
    if |xss| > 0 {
      FlattenLength(xss[1..], g);
      MulStep(|xss|, g);
    }
  }

  /** Position `i * g + k` lies inside `m` blocks of `g`. */
  lemma MulBound(i: nat, k: nat, m: nat, g: nat)
    requires i < m && k < g
    ensures i * g + k < m * g
  {
    MulStep(m - i, g);
    assert m * g == i * g + (m - i) * g;
  }

  /** Peeling off the first block. */
  lemma MulStep(i: nat, g: nat)
    requires i > 0
    ensures i * g == g + (i - 1) * g
  {
  }
}
