/** Per-site tabulation (`Site_ID_count_class.py`): layer 1 holds site
    identifiers and layer 2 classes. After removing the NoData positions of
    layer 1 from both layers, each distinct site gets one report line
    listing the classes found at its pixels and how often each occurs. */
module SiteCount {
  import opened Wrappers
  import opened Text
  import opened Tabulate
  import opened Flags

  /** The messages this script stops with. */
  const NodataUndefined: string := "name 'layer_1_nval' is not defined"

  /** The classes found at one site, ascending, with their pixel counts. */
  datatype SiteRecord = SiteRecord(site: int, values: seq<int>, counts: seq<nat>)

  /** One site's record: layer 2 restricted to the pixels where layer 1 holds
      the site, then `np.unique` with counts. */
  function SiteOf(a: seq<int>, b: seq<int>, site: int): (r: SiteRecord)
    requires |a| == |b|
    ensures r.site == site && |r.values| == |r.counts|
  {
    var pix := KeepWhere(b, a, site);
    SiteRecord(site, Unique(pix), Frequencies(pix))
  }

  /** Only the classes that occur at the site are listed, ascending, each
      with the number of its pixels, and the counts add up to the site's
      pixel count. */
  lemma SiteContents(a: seq<int>, b: seq<int>, site: int)
    requires |a| == |b|
    ensures var r := SiteOf(a, b, site);
            && StrictlyIncreasing(r.values)
            && (forall w :: w in r.values <==> multiset(Zip(a, b))[(site, w)] > 0)
            && (forall j :: 0 <= j < |r.values| ==> r.counts[j] == multiset(Zip(a, b))[(site, r.values[j])])
            && Sum(r.counts) == multiset(a)[site]
  {
    var pix := KeepWhere(b, a, site);
    SumFrequencies(pix);
    PairCounts(b, a, site);
    assert forall w :: w in pix <==> w in multiset(pix);
  }

  lemma PairCounts(b: seq<int>, a: seq<int>, site: int)
    requires |a| == |b|
    ensures forall w :: multiset(KeepWhere(b, a, site))[w] == multiset(Zip(a, b))[(site, w)]
  {
    forall w {
      KeepWherePairs(b, a, site, w);
    }
  }

  /** One record per distinct site of the filtered layers, in ascending
      site order. */
  function SiteRecords(a: seq<int>, b: seq<int>): (rs: seq<SiteRecord>)
    requires |a| == |b|
    ensures |rs| == |Unique(a)|
    ensures forall i :: 0 <= i < |rs| ==> rs[i] == SiteOf(a, b, Unique(a)[i])
  {
    var sites := Unique(a);
    seq(|sites|, i requires 0 <= i < |sites| => SiteOf(a, b, sites[i]))
  }

  /** One record per site of layer 1 other than NoData, in ascending site
      order. */
  predicate OnePerSite(rs: seq<SiteRecord>, a: seq<int>, nodata: int) {
    && (forall i, j :: 0 <= i < j < |rs| ==> rs[i].site < rs[j].site)
    && (forall i :: 0 <= i < |rs| ==> rs[i].site != nodata && rs[i].site in a)
    && (forall x :: x in a && x != nodata ==> exists i :: 0 <= i < |rs| && rs[i].site == x)
  }

  /** Sites of the filtered layers: ascending, never the NoData value, and
      every site of layer 1 other than NoData is present. */
  lemma FilteredSites(a: seq<int>, b: seq<int>, nodata: int)
    requires |a| == |b|
    ensures OnePerSite(SiteRecords(DropWhere(a, a, nodata), DropWhere(b, a, nodata)), a, nodata)
  {
    var a' := DropWhere(a, a, nodata);
    var rs := SiteRecords(a', DropWhere(b, a, nodata));
    var sites := Unique(a');
    assert forall i :: 0 <= i < |rs| ==> rs[i].site == sites[i];
    DropWhereMembers(a, nodata);
    forall i | 0 <= i < |rs|
      ensures rs[i].site != nodata && rs[i].site in a
    {
      assert sites[i] in sites;
    }
    forall x | x in a && x != nodata
      ensures exists i :: 0 <= i < |rs| && rs[i].site == x
    {
      assert x in sites;
      var i :| 0 <= i < |sites| && sites[i] == x;
      assert rs[i].site == x;
    }
  }

  /** What the record of `r.site` holds, measured on the original layers:
      the classes seen at the site's pixels, ascending, each with the number
      of those pixels, the counts adding up to the site's pixel count. */
  ghost predicate Tallies(r: SiteRecord, a: seq<int>, b: seq<int>)
    requires |a| == |b|
  {
    && |r.values| == |r.counts|
    && StrictlyIncreasing(r.values)
    && (forall w :: w in r.values <==> multiset(Zip(a, b))[(r.site, w)] > 0)
    && (forall j :: 0 <= j < |r.values| ==> r.counts[j] == multiset(Zip(a, b))[(r.site, r.values[j])])
    && Sum(r.counts) == multiset(a)[r.site]
  }

  /** NoData removal leaves the record of every other site as it is on the
      original layers. */
  lemma FilteredTallies(a: seq<int>, b: seq<int>, nodata: int, site: int)
    requires |a| == |b| && site != nodata
    ensures Tallies(SiteOf(DropWhere(a, a, nodata), DropWhere(b, a, nodata), site), a, b)
  {
    var a' := DropWhere(a, a, nodata);
    var b' := DropWhere(b, a, nodata);
    DropWhereAligned(a, b, nodata);
    SiteContents(a', b', site);
    forall w
      ensures multiset(Zip(a', b'))[(site, w)] == multiset(Zip(a, b))[(site, w)]
    {
      DropPairsCount(Zip(a, b), nodata, (site, w));
    }
    DropWhereSelf(a, nodata);
  }

  /** The site records of the run. The filtered layers are only defined when
      `remove_nodata` is on; otherwise the script stops with a `NameError`
      at its first use of them. */
  function SiteReport(a: seq<int>, b: seq<int>, nodata: int, removeNodata: bool): (r: Result<seq<SiteRecord>>)
    requires |a| == |b|
    ensures r.Ok? <==> removeNodata
    ensures r.Ok? ==> OnePerSite(r.value, a, nodata)
    ensures r.Ok? ==> forall i :: 0 <= i < |r.value| ==> Tallies(r.value[i], a, b)
  {
    if !removeNodata then Abort(NodataUndefined)
    else
      var rs := SiteRecords(DropWhere(a, a, nodata), DropWhere(b, a, nodata));
      FilteredSites(a, b, nodata);
      ReportTallies(a, b, nodata, rs);
      Ok(rs)
  }

  lemma ReportTallies(a: seq<int>, b: seq<int>, nodata: int, rs: seq<SiteRecord>)
    requires |a| == |b|
    requires rs == SiteRecords(DropWhere(a, a, nodata), DropWhere(b, a, nodata))
    ensures forall i :: 0 <= i < |rs| ==> Tallies(rs[i], a, b)
  {
    FilteredSites(a, b, nodata);
    forall i | 0 <= i < |rs|
      ensures Tallies(rs[i], a, b)
    {
      FilteredTallies(a, b, nodata, rs[i].site);
    }
  }

  // ---------------------------------------------------------------------
  // Report line
  // ---------------------------------------------------------------------

  /** `str(xs)` for a Python list of integers. */
  function PyList(xs: seq<int>): string {
    "[" + Join(", ", MapIntToString(xs)) + "]"
  }

  /** The line of one site: the site, the number of classes, then the text
      of `values + counts` with `,` turned into `;` and the brackets
      removed. */
  function SiteLine(r: SiteRecord): string {
    var listed := PyList(r.values + r.counts);
    var fields := ReplaceAll(ReplaceAll(ReplaceAll(listed, ",", ";"), "[", ""), "]", "");
    IntToString(r.site) + ";" + IntToString(|r.values|) + ";" + fields
  }

  function SiteLines(rs: seq<SiteRecord>): (lines: seq<string>)
    ensures |lines| == |rs|
    ensures forall i :: 0 <= i < |rs| ==> lines[i] == SiteLine(rs[i])
  {
    seq(|rs|, i requires 0 <= i < |rs| => SiteLine(rs[i]))
  }

  lemma NoCharInInts(xs: seq<int>, c: char)
    requires !IsDigit(c) && c != '-'
    ensures forall i :: 0 <= i < |xs| ==> c !in MapIntToString(xs)[i]
  {
    forall i | 0 <= i < |xs|
      ensures c !in MapIntToString(xs)[i]
    {
      var s := IntToString(xs[i]);
      assert forall k :: 0 <= k < |s| ==> s[k] != c;
    }
  }

  /** Turning every comma of a `", "`-joined list into `;` gives the
      `"; "`-joined list. */
  lemma {:induction false} CommaToSemicolon(xs: seq<string>)
    requires forall i :: 0 <= i < |xs| ==> ',' !in xs[i]
    ensures ReplaceAll(Join(", ", xs), ",", ";") == Join("; ", xs)
    decreases |xs|
  {
    if |xs| == 1 {
      ReplaceCharAbsent(xs[0], ',', ";");
    } else if |xs| > 1 {
      CommaToSemicolon(xs[1..]);
      var rest := Join(", ", xs[1..]);
      ReplaceCharAbsent(xs[0], ',', ";");
      ReplaceCharConcat(xs[0] + ", ", rest, ",", ";");
      ReplaceCharConcat(xs[0], ", ", ",", ";");
      assert ReplaceAll(", ", ",", ";") == "; ";
    }
  }

  /** Removes one bracket-free wrapper: `ReplaceAll("[" + k + "]", ...)`
      distributes over the three pieces. */
  lemma ReplaceWrapped(k: string, c: char, rep: string)
    ensures ReplaceAll("[" + k + "]", [c], rep)
         == ReplaceAll("[", [c], rep) + ReplaceAll(k, [c], rep) + ReplaceAll("]", [c], rep)
  {
    ReplaceCharConcat("[" + k, "]", [c], rep);
    ReplaceCharConcat("[", k, [c], rep);
  }

  /** The fields of a site line are the values and then the counts,
      separated by `"; "`: the space after each comma survives. */
  lemma SiteLineShape(r: SiteRecord)
    ensures SiteLine(r) == IntToString(r.site) + ";" + IntToString(|r.values|) + ";"
                           + Join("; ", MapIntToString(r.values + r.counts))
  {
    var xs := MapIntToString(r.values + r.counts);
    var k := Join("; ", xs);
    NoCharInInts(r.values + r.counts, ',');
    NoCharInInts(r.values + r.counts, '[');
    NoCharInInts(r.values + r.counts, ']');
    CommaToSemicolon(xs);
    ReplaceWrapped(Join(", ", xs), ',', ";");
    BracketLiterals();
    JoinAvoids("; ", xs, '[');
    JoinAvoids("; ", xs, ']');
    ReplaceWrapped(k, '[', "");
    ReplaceCharAbsent(k, '[', "");
    var k1 := ReplaceAll("[" + k + "]", "[", "");
    assert k1 == k + "]";
    ReplaceCharConcat(k, "]", "]", "");
    ReplaceCharAbsent(k, ']', "");
  }

  /** The replacements on the one-character pieces of a site line. */
  lemma BracketLiterals()
    ensures ReplaceAll("[", ",", ";") == "[" && ReplaceAll("]", ",", ";") == "]"
    ensures ReplaceAll("[", "[", "") == "" && ReplaceAll("]", "[", "") == "]"
    ensures ReplaceAll("]", "]", "") == ""
  {
    assert ReplaceAll("[", ",", ";") == "[";
    assert ReplaceAll("]", ",", ";") == "]";
    assert ReplaceAll("[", "[", "") == "";
    assert ReplaceAll("]", "[", "") == "]";
    assert ReplaceAll("]", "]", "") == "";
  }

  /** Over all sites, the pixel counts add up to the number of pixels left
      after NoData removal. */
  lemma SiteTotals(a: seq<int>, b: seq<int>, nodata: int)
    requires |a| == |b|
    ensures var rs := SiteReport(a, b, nodata, true).value;
            Sum(seq(|rs|, i requires 0 <= i < |rs| => Sum(rs[i].counts))) == |a| - multiset(a)[nodata]
  {
    var rs := SiteReport(a, b, nodata, true).value;
    var a' := DropWhere(a, a, nodata);
    var sites := Unique(a');
    var totals := seq(|rs|, i requires 0 <= i < |rs| => Sum(rs[i].counts));
    forall i | 0 <= i < |rs|
      ensures totals[i] == multiset(a')[sites[i]]
    {
      SiteContents(a', DropWhere(b, a, nodata), sites[i]);
    }
    SumPointwise(totals, multiset(a'), sites);
    SumOverCover(a', sites);
  }
}
