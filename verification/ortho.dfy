/** Batch orthorectification with footprints
    (`Batch_ORTHO_with_footprint_v2.0.py`): the option checks, the five
    output-name formats, the bounding box of the area of interest, the three
    ways of giving the output extent, the `o`-prefixed output of every file
    with its collision rename, and the footprint written beside it. */
module Ortho {
  import opened Wrappers
  import opened Text
  import opened WinPath
  import DateFormats
  import opened Messages

  /** The messages this script stops with. */
  const EmptyLayer: string := "min() arg is an empty sequence"
  /** With no window bound, the ortho call fails for every file and the
      message is only printed; the run then stops in the footprint step,
      which reads the output that was never written. The engine's own
      error text is not modelled: this names the step that stops. */
  const FootprintOfMissingOutput: string := "thr: the ortho output was not written"

  // ---------------------------------------------------------------------
  // Options
  // ---------------------------------------------------------------------

  /** The four corner values of an output window, as text. */
  datatype Corners = Corners(ulx: string, uly: string, lrx: string, lry: string)

  /** The options as written at the top of the script. The footprint switch
      is not here: it only selects which message is shown, and the footprint
      is made whatever it says. */
  datatype Options = Options(inputMode: int, format: int, extentOption: int, prefix: string,
                             resX: string, resY: string, projection2: string, corners2: Corners)

  /** The checks made before any file is read, in the order they run;
      `found` is the number of files listed or found. */
  function Validate(inputMode: int, found: nat, format: int): (r: Result<()>)
    ensures r.Ok? <==> (inputMode == 1 || inputMode == 2) && found > 0 && 1 <= format <= 5
    ensures inputMode != 1 && inputMode != 2 ==>
              r == Abort(BadInputMode)
    ensures (inputMode == 1 || inputMode == 2) && found == 0 ==> r == Abort(NoFilesFound)
  {
    if inputMode != 1 && inputMode != 2 then
      Abort(BadInputMode)
    else if found == 0 then Abort(NoFilesFound)
    else if !(1 <= format <= 5) then Abort(BadNameFormat)
    else Ok(())
  }

  // ---------------------------------------------------------------------
  // Output names
  // ---------------------------------------------------------------------

  /** The metadata read from one input file. */
  datatype Scene = Scene(path: string, dateTime: string, acquisitionType: string,
                         sensorModel: string, sourceId: string, orbitDirection: string)

  /** The name of one output before the `o` prefix, for formats 1 to 5:
      the input's own file name, or the prefix followed by the SourceID,
      the date, the acquisition type and date, or the sensor model, date
      and orbit direction. */
  function OutputName(format: int, prefix: string, s: Scene): (r: Option<string>)
    ensures r.Some? <==> 1 <= format <= 5
    ensures format == 1 ==> r == Some(Basename(s.path))
    ensures format == 2 ==> r == Some(prefix + s.sourceId + ".pix")
    ensures 2 <= format <= 5 ==> StartsWith(r.value, prefix) && EndsWith(r.value, ".pix")
  {
    var date := DateFormats.ReplacedDate(s.dateTime);
    var body :=
      if format == 2 then s.sourceId
      else if format == 3 then date
      else if format == 4 then s.acquisitionType + "_" + date
      else s.sensorModel + "_" + date + "_" + s.orbitDirection;
    if format == 1 then Some(Basename(s.path))
    else if 2 <= format <= 5 then
      EndsWithConcat(prefix + body, ".pix");
      assert (prefix + body + ".pix")[..|prefix|] == prefix;
      Some(prefix + body + ".pix")
    else None
  }

  /** For a timestamp of the usual shape, formats 3 to 5 carry the date as
      `YYYYMMDD`. */
  lemma NamesCarryDate(prefix: string, s: Scene, st: DateFormats.Stamp)
    requires DateFormats.WellFormed(st) && s.dateTime == DateFormats.Render(st)
    ensures var d := DateFormats.DateDigits(st);
            && OutputName(3, prefix, s) == Some(prefix + d + ".pix")
            && OutputName(4, prefix, s) == Some(prefix + (s.acquisitionType + "_" + d) + ".pix")
            && OutputName(5, prefix, s)
               == Some(prefix + (s.sensorModel + "_" + d + "_" + s.orbitDirection) + ".pix")
  {
    DateFormats.ReplacedDateOfStamp(st);
  }

  /** The names of all files, in order; with a format outside 1 to 5 no
      branch runs and the list stays empty. */
  function Names(format: int, prefix: string, scenes: seq<Scene>): (r: seq<string>)
    ensures 1 <= format <= 5 ==> |r| == |scenes|
    ensures !(1 <= format <= 5) ==> r == []
    ensures forall i :: 0 <= i < |r| ==> Some(r[i]) == OutputName(format, prefix, scenes[i])
  {
    if 1 <= format <= 5 then seq(|scenes|, i requires 0 <= i < |scenes| => OutputName(format, prefix, scenes[i]).value)
    else []
  }

  // ---------------------------------------------------------------------
  // Bounding box of the area of interest
  // ---------------------------------------------------------------------

  /** `shape.extents`: minimum x, minimum y, maximum x, maximum y. */
  datatype Extents = Extents(x0: real, y0: real, x1: real, y1: real)

  /** Upper-left and lower-right corners in map coordinates (y grows to the
      north, so the upper edge is the largest y). */
  datatype Box = Box(ulx: real, uly: real, lrx: real, lry: real)

  /** The x values collected from the shapes: both x extents of each. */
  function Xs(shapes: seq<Extents>): (xs: seq<real>)
    ensures |xs| == 2 * |shapes|
    ensures forall i :: 0 <= i < |shapes| ==> xs[2 * i] == shapes[i].x0 && xs[2 * i + 1] == shapes[i].x1
    decreases |shapes|
  {
    if |shapes| == 0 then []
    else
      var rest := Xs(shapes[1..]);
      assert forall i :: 1 <= i < |shapes| ==> shapes[i] == shapes[1..][i - 1];
      [shapes[0].x0, shapes[0].x1] + rest
  }

  /** The y values collected from the shapes. */
  function Ys(shapes: seq<Extents>): (ys: seq<real>)
    ensures |ys| == 2 * |shapes|
    ensures forall i :: 0 <= i < |shapes| ==> ys[2 * i] == shapes[i].y0 && ys[2 * i + 1] == shapes[i].y1
    decreases |shapes|
  {
    if |shapes| == 0 then []
    else
      var rest := Ys(shapes[1..]);
      assert forall i :: 1 <= i < |shapes| ==> shapes[i] == shapes[1..][i - 1];
      [shapes[0].y0, shapes[0].y1] + rest
  }

  /** `min(xs)` of a non-empty list. */
  function Min(xs: seq<real>): (m: real)
    requires |xs| > 0
    ensures m in xs
    ensures forall i :: 0 <= i < |xs| ==> m <= xs[i]
    decreases |xs|
  {
    if |xs| == 1 then xs[0]
    else
      var rest := Min(xs[1..]);
      assert forall i :: 1 <= i < |xs| ==> xs[i] == xs[1..][i - 1];
      if xs[0] <= rest then xs[0] else rest
  }

  /** `max(xs)` of a non-empty list. */
  function Max(xs: seq<real>): (m: real)
    requires |xs| > 0
    ensures m in xs
    ensures forall i :: 0 <= i < |xs| ==> xs[i] <= m
    decreases |xs|
  {
    if |xs| == 1 then xs[0]
    else
      var rest := Max(xs[1..]);
      assert forall i :: 1 <= i < |xs| ==> xs[i] == xs[1..][i - 1];
      if xs[0] >= rest then xs[0] else rest
  }

  /** Every extent of every shape lies inside the box. */
  predicate Covers(b: Box, shapes: seq<Extents>) {
    forall i :: 0 <= i < |shapes| ==>
      && b.ulx <= shapes[i].x0 && b.ulx <= shapes[i].x1
      && shapes[i].x0 <= b.lrx && shapes[i].x1 <= b.lrx
      && b.lry <= shapes[i].y0 && b.lry <= shapes[i].y1
      && shapes[i].y0 <= b.uly && shapes[i].y1 <= b.uly
  }

  /** The box around the shapes of the area-of-interest layer; a layer
      without shapes has none (`min` of an empty list raises). */
  function BoundingBox(shapes: seq<Extents>): (r: Option<Box>)
    ensures r.None? <==> |shapes| == 0
    ensures r.Some? ==> Covers(r.value, shapes)
  {
    if |shapes| == 0 then None
    else
      var xs := Xs(shapes);
      var ys := Ys(shapes);
      var b := Box(Min(xs), Max(ys), Max(xs), Min(ys));
      assert Covers(b, shapes) by {
        forall i | 0 <= i < |shapes|
          ensures b.ulx <= shapes[i].x0 && b.ulx <= shapes[i].x1
          ensures shapes[i].x0 <= b.lrx && shapes[i].x1 <= b.lrx
          ensures b.lry <= shapes[i].y0 && b.lry <= shapes[i].y1
          ensures shapes[i].y0 <= b.uly && shapes[i].y1 <= b.uly
        {
          assert xs[2 * i] == shapes[i].x0 && xs[2 * i + 1] == shapes[i].x1;
          assert ys[2 * i] == shapes[i].y0 && ys[2 * i + 1] == shapes[i].y1;
        }
      }
      Some(b)
  }

  /** Every value collected from shapes a box covers lies inside the box. */
  lemma {:induction false} CollectedInside(shapes: seq<Extents>, c: Box)
    requires Covers(c, shapes)
    ensures forall x :: x in Xs(shapes) ==> c.ulx <= x <= c.lrx
    ensures forall y :: y in Ys(shapes) ==> c.lry <= y <= c.uly
    decreases |shapes|
  {
    if |shapes| > 0 {
      var rest := shapes[1..];
      assert Covers(c, rest) by {
        assert forall i :: 0 <= i < |rest| ==> rest[i] == shapes[i + 1];
      }
      CollectedInside(rest, c);
      assert Xs(shapes) == [shapes[0].x0, shapes[0].x1] + Xs(rest);
      assert Ys(shapes) == [shapes[0].y0, shapes[0].y1] + Ys(rest);
    }
  }

  /** The bounding box is the smallest box covering the shapes: any box
      that covers them all contains it. */
  lemma BoxIsSmallest(shapes: seq<Extents>, c: Box)
    requires |shapes| > 0 && Covers(c, shapes)
    ensures var b := BoundingBox(shapes).value;
            c.ulx <= b.ulx && b.lrx <= c.lrx && c.lry <= b.lry && b.uly <= c.uly
  {
    CollectedInside(shapes, c);
  }

  // ---------------------------------------------------------------------
  // Output window
  // ---------------------------------------------------------------------

  /** What the ortho call receives as its extent: the projection, the
      corners and the pixel sizes, all as text. */
  datatype Window = Window(mapUnits: string, corners: Corners, resX: string, resY: string)

  /** The window of extent options 1 (the box around the area of interest,
      in its projection, each coordinate written by `render`, Python's
      `str` of a float), 2 (the values typed in the options) and 3 (empty,
      letting the ortho call choose, at 10-unit pixels). Any other option
      leaves the variables unbound. */
  function WindowFor(o: Options, aoiProjection: string, box: Box, render: real -> string): (r: Option<Window>)
    ensures r.Some? <==> 1 <= o.extentOption <= 3
    ensures o.extentOption == 1 ==> r == Some(Window(aoiProjection, Corners(render(box.ulx), render(box.uly),
                                                   render(box.lrx), render(box.lry)), o.resX, o.resY))
    ensures o.extentOption == 2 ==> r == Some(Window(o.projection2, o.corners2, o.resX, o.resY))
    ensures o.extentOption == 3 ==> r == Some(Window("", Corners("", "", "", ""), "10", "10"))
  {
    if o.extentOption == 1 then
      Some(Window(aoiProjection, Corners(render(box.ulx), render(box.uly), render(box.lrx), render(box.lry)),
                  o.resX, o.resY))
    else if o.extentOption == 2 then Some(Window(o.projection2, o.corners2, o.resX, o.resY))
    else if o.extentOption == 3 then Some(Window("", Corners("", "", "", ""), "10", "10"))
    else None
  }

  // ---------------------------------------------------------------------
  // Output and footprint paths
  // ---------------------------------------------------------------------

  /** The output first tried for a name: `o` + name in the output folder. */
  function Plain(out: string, name: string): string {
    WinPath.Join(out, "o" + name)
  }

  /** The output used when that one exists: the name without its last four
      characters, then `_count.pix`. The new name is not checked again. */
  function Renamed(out: string, name: string, count: nat): string {
    WinPath.Join(out, "o" + DropLast(name, 4) + "_" + NatToString(count) + ".pix")
  }

  /** The footprint of an output: `basename(filo[:-4])` + `_footprint.pix`,
      in the output folder. */
  function FootprintOf(out: string, ortho: string): string {
    WinPath.Join(out, Stem(ortho) + "_footprint.pix")
  }

  /** The footprint of an output named `x.pix` is `x_footprint.pix`, beside
      it. */
  lemma FootprintOfPix(out: string, x: string)
    requires PlainName(x)
    ensures FootprintOf(out, WinPath.Join(out, x + ".pix")) == WinPath.Join(out, x + "_footprint.pix")
  {
    StemOfJoin(out, x, ".pix");
  }

  /** The two outputs one file may get, each with its footprint. */
  datatype Choice = Choice(first: string, firstFootprint: string, renamed: string, renamedFootprint: string)

  function ChoiceFor(out: string, name: string, count: nat): Choice {
    var p := Plain(out, name);
    var q := Renamed(out, name, count);
    Choice(p, FootprintOf(out, p), q, FootprintOf(out, q))
  }

  /** The choices of every file, `count` being the position of the first
      one (the script counts from 1); `choice` gives the choices of a name
      at a position. */
  function Choices(names: seq<string>, count: nat, choice: (string, nat) -> Choice): (cs: seq<Choice>)
    ensures |cs| == |names|
    ensures forall k :: 0 <= k < |names| ==> cs[k] == choice(names[k], count + k)
  {
    seq(|names|, k requires 0 <= k < |names| => choice(names[k], count + k))
  }

  /** The output and footprint of every file: the first choice unless that
      path exists. The output and the footprint of one file exist by the
      time the next file is checked. */
  function Targets(cs: seq<Choice>, existing: set<string>): (ts: seq<(string, string)>)
    ensures |ts| == |cs|
    decreases |cs|
  {
    if |cs| == 0 then []
    else
      var c := cs[0];
      var t := if c.first in existing then (c.renamed, c.renamedFootprint) else (c.first, c.firstFootprint);
      [t] + Targets(cs[1..], existing + {t.0, t.1})
  }

  /** Each file gets its first choice when that path is free and its
      renamed output otherwise, each with the matching footprint. */
  lemma {:induction false} TargetsShape(cs: seq<Choice>, existing: set<string>)
    ensures var ts := Targets(cs, existing);
            forall k :: 0 <= k < |cs| ==>
              ts[k] == (cs[k].first, cs[k].firstFootprint) || ts[k] == (cs[k].renamed, cs[k].renamedFootprint)
    ensures |cs| > 0 ==>
              Targets(cs, existing)[0]
              == if cs[0].first in existing then (cs[0].renamed, cs[0].renamedFootprint)
                 else (cs[0].first, cs[0].firstFootprint)
    decreases |cs|
  {
    if |cs| > 0 {
      var c := cs[0];
      var t := if c.first in existing then (c.renamed, c.renamedFootprint) else (c.first, c.firstFootprint);
      TargetsShape(cs[1..], existing + {t.0, t.1});
      assert forall k :: 1 <= k < |cs| ==> cs[k] == cs[1..][k - 1];
    }
  }

  /** The paths taken when a file is checked: those that existed before
      the run, and the output and footprint of every earlier file. */
  function Taken(existing: set<string>, before: seq<(string, string)>): (t: set<string>)
    ensures existing <= t
    ensures forall k :: 0 <= k < |before| ==> before[k].0 in t && before[k].1 in t
  {
    existing + (set p | p in before :: p.0) + (set p | p in before :: p.1)
  }

  /** Every file gets its first choice exactly when that path is not taken
      by an existing file or an earlier output or footprint, and its
      renamed output otherwise. */
  lemma TargetsTaken(cs: seq<Choice>, existing: set<string>)
    ensures var ts := Targets(cs, existing);
            forall k :: 0 <= k < |cs| ==>
              ts[k] == if cs[k].first in Taken(existing, ts[..k]) then (cs[k].renamed, cs[k].renamedFootprint)
                       else (cs[k].first, cs[k].firstFootprint)
  {
    forall k | 0 <= k < |cs|
      ensures var ts := Targets(cs, existing);
              ts[k] == if cs[k].first in Taken(existing, ts[..k]) then (cs[k].renamed, cs[k].renamedFootprint)
                       else (cs[k].first, cs[k].firstFootprint)
    {
      TargetsTakenAt(cs, existing, k);
    }
  }

  lemma {:induction false} TargetsTakenAt(cs: seq<Choice>, existing: set<string>, k: nat)
    requires k < |cs|
    ensures var ts := Targets(cs, existing);
            ts[k] == if cs[k].first in Taken(existing, ts[..k]) then (cs[k].renamed, cs[k].renamedFootprint)
                     else (cs[k].first, cs[k].firstFootprint)
    decreases k
  {
    var c := cs[0];
    var t := if c.first in existing then (c.renamed, c.renamedFootprint) else (c.first, c.firstFootprint);
    var ex := existing + {t.0, t.1};
    var ts := Targets(cs, existing);
    var rest := Targets(cs[1..], ex);
    assert ts == [t] + rest;
    if k == 0 {
      assert ts[..0] == [];
      assert Taken(existing, []) == existing;
    } else {
      TargetsTakenAt(cs[1..], ex, k - 1);
      var before := Taken(ex, rest[..k - 1]);
      assert before == Taken(existing, ts[..k]) by {
        TakenStep(existing, t, rest[..k - 1]);
        assert ts[..k] == [t] + rest[..k - 1];
      }
      assert ts[k] == rest[k - 1];
      assert cs[1..][k - 1] == cs[k];
    }
  }

  /** Writing `t` first and then `before` takes the same paths as writing
      `[t] + before`. */
  lemma TakenStep(existing: set<string>, t: (string, string), before: seq<(string, string)>)
    ensures Taken(existing + {t.0, t.1}, before) == Taken(existing, [t] + before)
  {
  }

  /** An output lands on a path that already exists only through a rename:
      the first choice is never used when taken. */
  lemma {:induction false} ExistingOnlyWhenRenamed(cs: seq<Choice>, existing: set<string>)
    ensures var ts := Targets(cs, existing);
            forall k :: 0 <= k < |cs| && ts[k].0 in existing ==> ts[k].0 == cs[k].renamed
    decreases |cs|
  {
    if |cs| > 0 {
      var c := cs[0];
      var t := if c.first in existing then (c.renamed, c.renamedFootprint) else (c.first, c.firstFootprint);
      ExistingOnlyWhenRenamed(cs[1..], existing + {t.0, t.1});
      assert forall k :: 1 <= k < |cs| ==> cs[k] == cs[1..][k - 1];
    }
  }

  /** Two files share an output only when the later one was renamed. */
  lemma {:induction false} RepeatsAreRenamed(cs: seq<Choice>, existing: set<string>)
    ensures var ts := Targets(cs, existing);
            forall i, j :: 0 <= i < j < |cs| && ts[i].0 == ts[j].0 ==> ts[j].0 == cs[j].renamed
    decreases |cs|
  {
    if |cs| > 0 {
      var ts := Targets(cs, existing);
      var c := cs[0];
      var t := if c.first in existing then (c.renamed, c.renamedFootprint) else (c.first, c.firstFootprint);
      var ex := existing + {t.0, t.1};
      var rest := Targets(cs[1..], ex);
      assert ts == [t] + rest;
      RepeatsAreRenamed(cs[1..], ex);
      ExistingOnlyWhenRenamed(cs[1..], ex);
      forall i, j | 0 <= i < j < |cs| && ts[i].0 == ts[j].0
        ensures ts[j].0 == cs[j].renamed
      {
        assert ts[j] == rest[j - 1] && cs[j] == cs[1..][j - 1];
        if i > 0 {
          assert ts[i] == rest[i - 1];
        } else {
          assert rest[j - 1].0 in ex;
        }
      }
    }
  }

  /** The paths of the example below: `ox_2.pix` is both the first choice
      of `x_2.pix` and the rename of `x.pix` at position 2, and differs from
      `ox.pix`. */
  lemma OverwriteNames(out: string)
    ensures Renamed(out, "x.pix", 2) == Plain(out, "x_2.pix")
    ensures Plain(out, "x_2.pix") != Plain(out, "x.pix")
  {
    RenamedText();
    assert "o" + "x_2.pix" == "ox_2.pix";
    assert "o" + "x.pix" == "ox.pix";
    assert Renamed(out, "x.pix", 2) == WinPath.Join(out, "ox_2.pix");
    assert Plain(out, "x_2.pix") == WinPath.Join(out, "ox_2.pix");
    LiteralsArePlain();
    JoinPlainName(out, "ox_2.pix");
    JoinPlainName(out, "ox.pix");
    assert |"ox_2.pix"| != |"ox.pix"|;
  }

  lemma RenamedText()
    ensures "o" + DropLast("x.pix", 4) + "_" + NatToString(2) + ".pix" == "ox_2.pix"
  {
    assert NatToString(2) == "2";
    assert DropLast("x.pix", 4) == "x";
  }

  lemma LiteralsArePlain()
    ensures PlainName("ox_2.pix") && PlainName("ox.pix")
  {
    var a := "ox_2.pix";
    var b := "ox.pix";
    assert forall i :: 0 <= i < |a| ==> a[i] != '\\' && a[i] != '/' && a[i] != ':';
    assert forall i :: 0 <= i < |b| ==> b[i] != '\\' && b[i] != '/' && b[i] != ':';
  }

  /** The rename is not checked for a clash: when the first choice of the
      second file is taken and its rename is the first file's output, both
      files write the same path. */
  lemma {:induction false} RenameClash(cs: seq<Choice>, existing: set<string>)
    requires |cs| == 2
    requires cs[0].first !in existing && cs[1].first in existing && cs[1].renamed == cs[0].first
    ensures Targets(cs, existing)[0].0 == Targets(cs, existing)[1].0
  {
    var t := (cs[0].first, cs[0].firstFootprint);
    var ex := existing + {t.0, t.1};
    assert Targets(cs, existing) == [t] + Targets(cs[1..], ex);
    assert cs[1..][0] == cs[1];
    TargetsShape(cs[1..], ex);
  }

  /** So a renamed output can land on an earlier one: `x_2.pix` followed by
      `x.pix`, when `ox.pix` is already in the folder, gives the same output
      twice. */
  lemma RenameCanOverwrite(out: string)
    ensures var ts := Outputs(out, ["x_2.pix", "x.pix"], {Plain(out, "x.pix")});
            ts[0].0 == ts[1].0
  {
    var cs := Choices(["x_2.pix", "x.pix"], 1, (n: string, c: nat) => ChoiceFor(out, n, c));
    ExampleChoices(out);
    OverwriteNames(out);
    RenameClash(cs, {Plain(out, "x.pix")});
  }

  lemma ExampleChoices(out: string)
    ensures var cs := Choices(["x_2.pix", "x.pix"], 1, (n: string, c: nat) => ChoiceFor(out, n, c));
            |cs| == 2 && cs[0] == ChoiceFor(out, "x_2.pix", 1) && cs[1] == ChoiceFor(out, "x.pix", 2)
  {
  }

  // ---------------------------------------------------------------------
  // The whole run
  // ---------------------------------------------------------------------

  /** The output and footprint of every file of a run, the first file
      counting as 1. */
  function Outputs(out: string, names: seq<string>, existing: set<string>): (ts: seq<(string, string)>)
    ensures |ts| == |names|
  {
    Targets(Choices(names, 1, (n: string, c: nat) => ChoiceFor(out, n, c)), existing)
  }

  /** Each output is the `o`-prefixed name with its footprint, or, when
      that output exists, the renamed one with its footprint. */
  lemma OutputsShape(out: string, names: seq<string>, existing: set<string>)
    ensures var ts := Outputs(out, names, existing);
            forall k :: 0 <= k < |names| ==>
              var c := ChoiceFor(out, names[k], k + 1);
              ts[k] == (c.first, c.firstFootprint) || ts[k] == (c.renamed, c.renamedFootprint)
  {
    var cs := Choices(names, 1, (n: string, c: nat) => ChoiceFor(out, n, c));
    TargetsShape(cs, existing);
  }

  /** What one input gives: its orthorectified output and its footprint. */
  datatype Product = Product(input: string, ortho: string, footprint: string)

  /** The ortho loop over the inputs and their names, paired as `zip` pairs
      them. */
  function Products(out: string, inputs: seq<string>, names: seq<string>, existing: set<string>)
    : (r: seq<Product>)
    ensures |r| == if |inputs| <= |names| then |inputs| else |names|
    ensures forall i :: 0 <= i < |r| ==> r[i].input == inputs[i]
  {
    var n := if |inputs| <= |names| then |inputs| else |names|;
    var ts := Outputs(out, names[..n], existing);
    seq(n, i requires 0 <= i < n => Product(inputs[i], ts[i].0, ts[i].1))
  }

  /** Every product is the `o`-prefixed output of its name, or its renamed
      output, with the matching footprint. */
  lemma ProductsShape(out: string, inputs: seq<string>, names: seq<string>, existing: set<string>)
    ensures var r := Products(out, inputs, names, existing);
            forall i :: 0 <= i < |r| ==>
              var c := ChoiceFor(out, names[i], i + 1);
              (r[i].ortho, r[i].footprint) == (c.first, c.firstFootprint)
              || (r[i].ortho, r[i].footprint) == (c.renamed, c.renamedFootprint)
  {
    var n := if |inputs| <= |names| then |inputs| else |names|;
    OutputsShape(out, names[..n], existing);
    assert forall i :: 0 <= i < n ==> names[..n][i] == names[i];
  }

  /** What the ortho loop needs once the checks pass: the window and the
      name of every input. */
  datatype Job = Job(window: Window, names: seq<string>)

  /** The checks, the area of interest (read only for extent option 1), the
      window and the names. An extent option other than 1 to 3 leaves the
      window unbound: the ortho call then fails for every file, and the
      footprint step that follows it is not guarded and stops the run on
      the output that was not written. */
  function Prepare(o: Options, scenes: seq<Scene>, aoiProjection: string, aoi: seq<Extents>,
                   render: real -> string): (r: Result<Job>)
    ensures r.Ok? <==>
      && Validate(o.inputMode, |scenes|, o.format).Ok?
      && (o.extentOption == 1 ==> |aoi| > 0)
      && 1 <= o.extentOption <= 3
    ensures r.Ok? ==> |r.value.names| == |scenes|
    ensures r.Ok? ==> forall i :: 0 <= i < |scenes| ==> Some(r.value.names[i]) == OutputName(o.format, o.prefix, scenes[i])
    ensures r.Ok? && o.extentOption == 1 ==>
              Some(r.value.window) == WindowFor(o, aoiProjection, BoundingBox(aoi).value, render)
    ensures r.Ok? && o.extentOption != 1 ==>
              Some(r.value.window) == WindowFor(o, aoiProjection, Box(0.0, 0.0, 0.0, 0.0), render)
    ensures r.Ok? && o.extentOption == 2 ==> r.value.window.corners == o.corners2
    ensures r.Ok? && o.extentOption == 3 ==> r.value.window.resX == "10" && r.value.window.resY == "10"
  {
    match Validate(o.inputMode, |scenes|, o.format)
    case Abort(e) => Abort(e)
    case Ok(_) =>
      var box := if o.extentOption == 1 then BoundingBox(aoi) else Some(Box(0.0, 0.0, 0.0, 0.0));
      match box
      case None => Abort(EmptyLayer)
      case Some(b) =>
        match WindowFor(o, aoiProjection, b, render)
        case None => Abort(FootprintOfMissingOutput)
        case Some(w) => Ok(Job(w, Names(o.format, o.prefix, scenes)))
  }

  /** The text of `Orthorectified_Data_list.txt`: the outputs, one per line. */
  function DataList(ps: seq<Product>): string {
    Text.Join("\n", seq(|ps|, i requires 0 <= i < |ps| => ps[i].ortho))
  }

  /** Reading the list back line by line gives the outputs in order, as
      long as no output path holds a line break. */
  lemma DataListReadsBack(ps: seq<Product>)
    requires |ps| > 0
    requires forall i :: 0 <= i < |ps| ==> '\n' !in ps[i].ortho
    ensures var lines := SplitChar(DataList(ps), '\n');
            |lines| == |ps| && forall i :: 0 <= i < |ps| ==> lines[i] == ps[i].ortho
  {
    var paths := seq(|ps|, i requires 0 <= i < |ps| => ps[i].ortho);
    SplitJoin(paths, '\n');
  }
}
