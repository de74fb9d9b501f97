/** Comparison of two thematic (classified) layers of one raster
    (`Classification_comparison_v2_with_NoData.py`): optional removal of the
    NoData positions of layer 1 from both layers, the distinct classes of
    each layer with their pixel counts, the equal-total check, one dense
    row of layer-2 counts per layer-1 class, and the `;`-separated
    confusion-matrix lines. Both layers are read from the same raster, so
    they always have the same number of pixels. */
module ClassificationCompare {
  import opened Wrappers
  import opened Text
  import opened Tabulate

  /** The messages this script stops with. */
  const SumsDiffer: string := "the sum of pixels for both layer is not the same"

  /** Number of NoData pixels of a layer: its length minus the length left
      after deleting its own NoData values. */
  function NoDataCount(layer: seq<int>, nodata: int): (n: nat)
    ensures n == multiset(layer)[nodata]
    ensures n == 0 <==> nodata !in layer
  {
    |layer| - |DropWhere(layer, layer, nodata)|
  }

  /** The two layers as they enter the tabulation: when the common NoData
      option is on, every position where layer 1 holds the sentinel is
      deleted from both layers, by layer 1's mask alone. */
  function CommonMask(a: seq<int>, b: seq<int>, nodata: int, apply: bool): (r: (seq<int>, seq<int>))
    requires |a| == |b|
    ensures |r.0| == |r.1|
    ensures !apply ==> r == (a, b)
    ensures apply ==> nodata !in r.0
    ensures apply ==> |r.0| == |a| - multiset(a)[nodata]
    ensures apply ==> multiset(r.0) == multiset(a)[nodata := 0]
  {
    if apply then
      DropWhereSelf(a, nodata);
      assert forall x :: x in DropWhere(a, a, nodata) <==> x in multiset(DropWhere(a, a, nodata));
      (DropWhere(a, a, nodata), DropWhere(b, a, nodata))
    else (a, b)
  }

  /** The pixel-count check between the two layers: the run stops when the
      counts of the two layers do not add up to the same total. */
  function CheckTotals(a: seq<int>, b: seq<int>): (r: Result<()>)
    ensures r.Ok? <==> |a| == |b|
  {
    SumFrequencies(a);
    SumFrequencies(b);
    if Sum(Frequencies(a)) != Sum(Frequencies(b)) then
      Abort(SumsDiffer)
    else Ok(())
  }

  /** Position of the first occurrence of `x` (Python's `list.index`). */
  function IndexOf(xs: seq<int>, x: int): (i: nat)
    requires x in xs
    ensures i < |xs| && xs[i] == x
    ensures x !in xs[..i]
    decreases |xs|
  {
    if xs[0] == x then 0
    else
      var i := IndexOf(xs[1..], x);
      assert xs[..i + 1] == [xs[0]] + xs[1..][..i];
      i + 1
  }

  /** The zero-filled row: for each column class, its count among the
      row's layer-2 classes when it is one of them, else 0. */
  function DenseRow(cols: seq<int>, tpValues: seq<int>, tpFreqs: seq<nat>): (row: seq<nat>)
    requires |tpValues| == |tpFreqs|
    ensures |row| == |cols|
    ensures forall j :: 0 <= j < |cols| && cols[j] !in tpValues ==> row[j] == 0
    ensures forall j :: 0 <= j < |cols| && cols[j] in tpValues ==> row[j] == tpFreqs[IndexOf(tpValues, cols[j])]
    decreases |cols|
  {
    if |cols| == 0 then []
    else
      var cell := if cols[0] in tpValues then tpFreqs[IndexOf(tpValues, cols[0])] else 0;
      [cell] + DenseRow(cols[1..], tpValues, tpFreqs)
  }

  /** The row of layer-1 class `v`: layer 2 restricted to the positions of
      `v`, tabulated, and spread over all layer-2 classes. */
  function Row(a: seq<int>, b: seq<int>, v: int): (row: seq<nat>)
    requires |a| == |b|
    ensures |row| == |Unique(b)|
  {
    var sub := KeepWhere(b, a, v);
    DenseRow(Unique(b), Unique(sub), Frequencies(sub))
  }

  /** The confusion matrix: row classes, column classes and one row of
      counts per row class. */
  datatype Matrix = Matrix(rows: seq<int>, cols: seq<int>, cells: seq<seq<nat>>)

  function CrossTab(a: seq<int>, b: seq<int>): (m: Matrix)
    requires |a| == |b|
    ensures m.rows == Unique(a) && m.cols == Unique(b)
    ensures |m.cells| == |m.rows|
    ensures forall i :: 0 <= i < |m.cells| ==> |m.cells[i]| == |m.cols|
  {
    var u := Unique(a);
    Matrix(u, Unique(b), seq(|u|, i requires 0 <= i < |u| => Row(a, b, u[i])))
  }

  /** The whole computation on the two flattened layers. */
  function Compare(a: seq<int>, b: seq<int>, nodata: int, applyCommon: bool): (r: Result<Matrix>)
    requires |a| == |b|
    ensures r.Ok?
    ensures applyCommon ==> nodata !in r.value.rows
    ensures StrictlyIncreasing(r.value.rows) && StrictlyIncreasing(r.value.cols)
    ensures forall x :: x in r.value.rows <==> x in a && !(applyCommon && x == nodata)
    ensures r.value.cols == Unique(CommonMask(a, b, nodata, applyCommon).1)
    ensures |r.value.cells| == |r.value.rows|
    ensures forall i :: 0 <= i < |r.value.rows| ==> |r.value.cells[i]| == |r.value.cols|
    ensures forall i, j :: 0 <= i < |r.value.rows| && 0 <= j < |r.value.cols| ==>
              r.value.cells[i][j] == multiset(Zip(a, b))[(r.value.rows[i], r.value.cols[j])]
  {
    var (a', b') := CommonMask(a, b, nodata, applyCommon);
    DropWhereMembers(a, nodata);
    MaskedCells(a, b, nodata, applyCommon);
    match CheckTotals(a', b')
    case Abort(e) => Abort(e)
    case Ok(_) => Ok(CrossTab(a', b'))
  }

  /** The cells of the masked tabulation count the pairs of the original
      layers: the mask removes only pairs whose row class is the NoData
      value, and that value is then never a row. */
  lemma MaskedCells(a: seq<int>, b: seq<int>, nodata: int, applyCommon: bool)
    requires |a| == |b|
    ensures var (a', b') := CommonMask(a, b, nodata, applyCommon);
            var m := CrossTab(a', b');
            forall i, j :: 0 <= i < |m.rows| && 0 <= j < |m.cols| ==>
              m.cells[i][j] == multiset(Zip(a, b))[(m.rows[i], m.cols[j])]
  {
    var (a', b') := CommonMask(a, b, nodata, applyCommon);
    var m := CrossTab(a', b');
    forall i, j | 0 <= i < |m.rows| && 0 <= j < |m.cols|
      ensures m.cells[i][j] == multiset(Zip(a, b))[(m.rows[i], m.cols[j])]
    {
      CellCounts(a', b', i, j);
      if applyCommon {
        DropWhereAligned(a, b, nodata);
        assert m.rows[i] in a';
        DropPairsCount(Zip(a, b), nodata, (m.rows[i], m.cols[j]));
      }
    }
  }

  // ---------------------------------------------------------------------
  // What the rows hold
  // ---------------------------------------------------------------------

  /** Each dense entry is the number of row samples holding the column's
      class, whether or not that class occurs in the row. */
  lemma DenseRowCounts(cols: seq<int>, sub: seq<int>)
    ensures forall j :: 0 <= j < |cols| ==>
      DenseRow(cols, Unique(sub), Frequencies(sub))[j] == multiset(sub)[cols[j]]
  {
  }

  /** A cell of the matrix counts the positions where layer 1 holds the row
      class and layer 2 the column class. */
  lemma CellCounts(a: seq<int>, b: seq<int>, i: nat, j: nat)
    requires |a| == |b|
    requires i < |Unique(a)| && j < |Unique(b)|
    ensures var m := CrossTab(a, b);
            m.cells[i][j] == multiset(Zip(a, b))[(m.rows[i], m.cols[j])]
  {
    var v := Unique(a)[i];
    var w := Unique(b)[j];
    DenseRowCounts(Unique(b), KeepWhere(b, a, v));
    KeepWherePairs(b, a, v, w);
  }

  /** A row adds up to the number of pixels of its layer-1 class, which is
      at least one: the percentage denominator is never zero. */
  lemma RowSum(a: seq<int>, b: seq<int>, v: int)
    requires |a| == |b|
    ensures Sum(Row(a, b, v)) == multiset(a)[v]
    ensures v in a ==> Sum(Row(a, b, v)) >= 1
  {
    var sub := KeepWhere(b, a, v);
    var cols := Unique(b);
    DenseRowCounts(cols, sub);
    SumPointwise(Row(a, b, v), multiset(sub), cols);
    KeepWhereSubset(b, a, v);
    SumOverCover(sub, cols);
  }

  /** Summed over all rows, the cells count every tabulated pixel once. */
  lemma GrandTotal(a: seq<int>, b: seq<int>)
    requires |a| == |b|
    ensures var m := CrossTab(a, b);
            Sum(seq(|m.cells|, i requires 0 <= i < |m.cells| => Sum(m.cells[i]))) == |a|
  {
    var m := CrossTab(a, b);
    var totals := seq(|m.cells|, i requires 0 <= i < |m.cells| => Sum(m.cells[i]));
    forall i | 0 <= i < |m.rows|
      ensures totals[i] == multiset(a)[m.rows[i]]
    {
      RowSum(a, b, m.rows[i]);
    }
    SumPointwise(totals, multiset(a), m.rows);
    SumOverCover(a, m.rows);
  }

  /** With common NoData removal, both layers keep the same number of
      pixels, so the equal-total check always passes. */
  lemma CheckNeverFires(a: seq<int>, b: seq<int>, nodata: int, applyCommon: bool)
    requires |a| == |b|
    ensures var (a', b') := CommonMask(a, b, nodata, applyCommon);
            CheckTotals(a', b').Ok?
  {
  }

  // ---------------------------------------------------------------------
  // Report lines
  // ---------------------------------------------------------------------

  /** The two header lines of the matrix section. The section opens with
      a line holding a single tab, which comes before these two and is not
      part of this model. */
  function HeaderLines(cols: seq<int>): (r: seq<string>)
    ensures |r| == 2
    ensures r[0] == ".;.;layer2;.;.;.;.;.;.;layer2"
  {
    var j := Join(";", MapIntToString(cols));
    [".;.;layer2;.;.;.;.;.;.;layer2", "...;cl;" + j + ";.;cl;" + j]
  }

  /** The second header line splits on `;` into `...`, `cl`, the column
      classes, `.`, `cl` and the column classes again. */
  lemma HeaderFields(cols: seq<int>)
    requires |cols| > 0
    ensures SplitChar(HeaderLines(cols)[1], ';') == ["...", "cl"] + MapIntToString(cols) + [".", "cl"] + MapIntToString(cols)
  {
    var cs := MapIntToString(cols);
    var f := ["...", "cl"] + cs + [".", "cl"] + cs;
    HeaderJoin(cs);
    forall k | 0 <= k < |f|
      ensures ';' !in f[k]
    {
      if 2 <= k < 2 + |cs| {
        IntToStringNoSemicolon(cols[k - 2]);
      } else if 4 + |cs| <= k {
        IntToStringNoSemicolon(cols[k - 4 - |cs|]);
      }
    }
    SplitJoin(f, ';');
  }

  /** The second header line is the join of its fields. */
  lemma HeaderJoin(cs: seq<string>)
    requires |cs| > 0
    ensures Join(";", ["...", "cl"] + cs + [".", "cl"] + cs) == "...;cl;" + Join(";", cs) + ";.;cl;" + Join(";", cs)
  {
    var head: seq<string> := ["...", "cl"];
    var mid: seq<string> := [".", "cl"];
    JoinAround(";", head, cs, mid);
    HeaderLiterals();
    HeaderShape(Join(";", cs));
  }

  /** Joining `h + xs + m + xs` is joining the four pieces. */
  lemma JoinAround(sep: string, h: seq<string>, xs: seq<string>, m: seq<string>)
    requires |h| > 0 && |xs| > 0 && |m| > 0
    ensures Join(sep, h + xs + m + xs)
            == Join(sep, h) + sep + (Join(sep, xs) + sep + (Join(sep, m) + sep + Join(sep, xs)))
  {
    var mx := m + xs;
    var tail := xs + mx;
    SeqAssoc(h, xs, m, xs);
    JoinConcat(sep, m, xs);
    JoinConcat(sep, xs, mx);
    JoinConcat(sep, h, tail);
  }

  lemma SeqAssoc(a: seq<string>, b: seq<string>, c: seq<string>, d: seq<string>)
    ensures a + b + c + d == a + (b + (c + d))
  {
  }

  lemma HeaderLiterals()
    ensures Join(";", ["...", "cl"]) == "...;cl" && Join(";", [".", "cl"]) == ".;cl"
  {
    assert ["...", "cl"][1..] == ["cl"];
    assert [".", "cl"][1..] == ["cl"];
  }

  lemma HeaderShape(j: string)
    ensures "...;cl;" + j + ";.;cl;" + j == "...;cl" + ";" + (j + ";" + (".;cl" + ";" + j))
  {
  }

  /** One matrix line: the class, its counts, the class again, then the
      row percentages (the rounded percentages are computed in floating
      point and are passed in already rendered). */
  function RowLine(v: int, counts: seq<nat>, pcts: seq<string>): string {
    "layer1;" + IntToString(v) + ";" + Join(";", MapIntToString(counts))
      + ";.;" + IntToString(v) + ";" + Join(";", pcts)
  }

  /** The fields of a row line, in order. */
  function RowFields(v: int, counts: seq<nat>, pcts: seq<string>): seq<string> {
    ["layer1", IntToString(v)] + (MapIntToString(counts) + ([".", IntToString(v)] + pcts))
  }

  lemma IntToStringNoSemicolon(i: int)
    ensures ';' !in IntToString(i)
  {
    var s := IntToString(i);
    assert forall k :: 0 <= k < |s| ==> s[k] != ';';
  }

  /** A row line is its fields joined by `;`. */
  lemma RowLineJoin(v: int, counts: seq<nat>, pcts: seq<string>)
    requires |counts| > 0 && |pcts| > 0
    ensures RowLine(v, counts, pcts) == Join(";", RowFields(v, counts, pcts))
  {
    var s := IntToString(v);
    var cs := MapIntToString(counts);
    var c := Join(";", cs);
    var p := Join(";", pcts);
    var head: seq<string> := ["layer1", s];
    var mid: seq<string> := [".", s];
    JoinConcat(";", mid, pcts);
    var tail := Join(";", mid + pcts);
    assert tail == "." + ";" + s + ";" + p;
    JoinConcat(";", cs, mid + pcts);
    JoinConcat(";", head, cs + (mid + pcts));
    RowLineShape(s, c, p);
  }

  lemma RowLineShape(s: string, c: string, p: string)
    ensures "layer1;" + s + ";" + c + ";.;" + s + ";" + p
         == ("layer1" + ";" + s) + ";" + (c + ";" + ("." + ";" + s + ";" + p))
  {
  }

  /** A row line splits on `;` back into its fields whenever no percentage
      text contains `;`. */
  lemma RowLineFields(v: int, counts: seq<nat>, pcts: seq<string>)
    requires |counts| > 0 && |pcts| > 0
    requires forall k :: 0 <= k < |pcts| ==> ';' !in pcts[k]
    ensures SplitChar(RowLine(v, counts, pcts), ';') == RowFields(v, counts, pcts)
  {
    RowLineJoin(v, counts, pcts);
    var f := RowFields(v, counts, pcts);
    IntToStringNoSemicolon(v);
    forall k | 0 <= k < |counts|
      ensures ';' !in MapIntToString(counts)[k]
    {
      IntToStringNoSemicolon(counts[k]);
    }
    assert forall k :: 0 <= k < |f| ==> ';' !in f[k];
    SplitJoin(f, ';');
  }
}
