/** Batch SAR ingestion (`Batch_SARINGEST_for_RS2_RCM_S1_v2.py`): option
    validation, the abbreviations of the scene metadata, the five output
    name formats and the renaming of outputs whose name is already taken.
    The ingestion itself is done by the vendor engine and is not modelled;
    the metadata of each scene is an input. */
module SarIngest {
  import opened Wrappers
  import opened Text
  import opened DateFormats
  import opened Messages

  /** The messages this script stops with. */
  const BadCalibration: string := "Calibration type is invalid"
  const ClipFileMissing: string := "the specified saringestaoi_clipfile path/file name does not exists or is incorrect"
  const DemMissing: string := "the specified saringestaoi_dem path/file name does not exists or is incorrect"
  const BadSubset: string := "Specified subset option is invalid"
  const BadDateFormat: string := "specified date_format options is invalid"

  const CalibrationTypes: seq<string> := ["sigma", "gamma", "beta", "none"]
  const IngestAlgorithms: seq<string> := ["saringest", "saringestaoi"]
  const SubsetAnswers: seq<string> := ["yes", "y", "ys", "yse", "n", "no", "nn"]
  const DateFormatNames: seq<string> := ["compact", "unique"]

  /** The user options of the script. */
  datatype Options = Options(
    format: int,
    calibration: string,
    ingestAlgo: string,
    clipFile: string,
    dem: string,
    subset: string,
    dateFormat: string,
    inputMode: int)

  /** With the AOI ingestion, a clip file or DEM that is named must exist. */
  predicate AoiFilesPresent(o: Options, existing: set<string>) {
    Lower(o.ingestAlgo) == "saringestaoi" ==>
      (o.clipFile == "" || o.clipFile in existing) && (o.dem == "" || o.dem in existing)
  }

  /** The checks made before any file is read, in the order the script makes
      them, then the input mode and the number of files found. An unknown
      ingestion algorithm is reported but does not stop the run. */
  function Validate(o: Options, existing: set<string>, found: nat): (r: Result<()>)
    ensures r.Ok? <==>
      && 1 <= o.format <= 5
      && Lower(o.calibration) in CalibrationTypes
      && AoiFilesPresent(o, existing)
      && Lower(o.subset) in SubsetAnswers
      && Lower(o.dateFormat) in DateFormatNames
      && (o.inputMode == 1 || o.inputMode == 2)
      && found > 0
    ensures !(1 <= o.format <= 5) ==> r == Abort(FormatUndefined)
  {
    if !(1 <= o.format <= 5) then Abort(FormatUndefined)
    else if Lower(o.calibration) !in CalibrationTypes then Abort(BadCalibration)
    else if Lower(o.ingestAlgo) == "saringestaoi" && o.clipFile != "" && o.clipFile !in existing then
      Abort(ClipFileMissing)
    else if Lower(o.ingestAlgo) == "saringestaoi" && o.dem != "" && o.dem !in existing then
      Abort(DemMissing)
    else if Lower(o.subset) !in SubsetAnswers then Abort(BadSubset)
    else if Lower(o.dateFormat) !in DateFormatNames then Abort(BadDateFormat)
    else if o.inputMode != 1 && o.inputMode != 2 then Abort(BadInputMode)
    else if found == 0 then Abort(NoFilesFound)
    else Ok(())
  }

  /** Only the AOI variant looks at the clip file and DEM; any other value
      of the algorithm, valid or not, validates like `saringest`. */
  lemma IngestAlgoOnlyWarns(o: Options, existing: set<string>, found: nat)
    requires Lower(o.ingestAlgo) != "saringestaoi"
    ensures Validate(o, existing, found) == Validate(o.(ingestAlgo := "saringest"), existing, found)
  {
    var o2 := o.(ingestAlgo := "saringest");
    assert |Lower(o2.ingestAlgo)| != |"saringestaoi"|;
  }

  /** Outputs are written only when the algorithm is one of the two known
      ones. */
  function Writes(o: Options): bool {
    Lower(o.ingestAlgo) in IngestAlgorithms
  }

  // ---------------------------------------------------------------------
  // Metadata abbreviations
  // ---------------------------------------------------------------------

  /** The metadata the names are built from, one record per scene. */
  datatype Scene = Scene(
    dateTime: string,
    sourceId: string,
    platform: string,
    orbit: string,
    beamMode: string,
    productType: string,
    polarizations: string)

  function PlatformAbbrev(platform: string): (r: string)
    ensures r == "RS2" <==> platform == "RADARSAT-2" || platform == "RS2"
    ensures r == "S1" <==> platform == "SENTINEL-1" || platform == "S1"
    ensures r != platform ==> platform == "RADARSAT-2" || platform == "SENTINEL-1"
  {
    if platform == "RADARSAT-2" then "RS2"
    else if platform == "SENTINEL-1" then "S1"
    else platform
  }

  function OrbitAbbrev(orbit: string): (r: string)
    ensures r == "DESC" <==> orbit == "Descending" || orbit == "DESC"
    ensures r == "ASC" <==> orbit == "Ascending" || orbit == "ASC"
    ensures r != orbit ==> orbit == "Descending" || orbit == "Ascending"
  {
    if orbit == "Descending" then "DESC"
    else if orbit == "Ascending" then "ASC"
    else orbit
  }

  /** Abbreviating twice is abbreviating once. */
  lemma AbbrevIdempotent(platform: string, orbit: string)
    ensures PlatformAbbrev(PlatformAbbrev(platform)) == PlatformAbbrev(platform)
    ensures OrbitAbbrev(OrbitAbbrev(orbit)) == OrbitAbbrev(orbit)
  {
  }

  /** `Polarizations.replace(", ", "-")` */
  function PolarizationAbbrev(pols: string): string {
    ReplaceAll(pols, ", ", "-")
  }

  lemma {:induction false} ReplaceSkip(x: string, rest: string, rep: string)
    requires ',' !in x
    ensures ReplaceAll(x + rest, ", ", rep) == x + ReplaceAll(rest, ", ", rep)
    decreases |x|
  {
    var s := x + rest;
    if |x| == 0 {
      assert s == rest;
    } else if |s| < 2 {
      assert rest == "" && s == x;
    } else {
      assert s[..2] != ", " by { assert s[0] == x[0]; }
      assert s[1..] == x[1..] + rest;
      ReplaceSkip(x[1..], rest, rep);
      assert x == [x[0]] + x[1..];
    }
  }

  /** A `", "`-separated list of polarisations becomes `-`-separated. */
  lemma {:induction false} PolarizationList(pols: seq<string>)
    requires forall k :: 0 <= k < |pols| ==> ',' !in pols[k]
    ensures PolarizationAbbrev(Join(", ", pols)) == Join("-", pols)
    decreases |pols|
  {
    if |pols| == 1 {
      ReplaceSkip(pols[0], "", "-");
      assert pols[0] + "" == pols[0];
    } else if |pols| > 1 {
      var rest := Join(", ", pols[1..]);
      PolarizationList(pols[1..]);
      assert pols[0] + ", " + rest == pols[0] + (", " + rest);
      ReplaceSkip(pols[0], ", " + rest, "-");
      assert (", " + rest)[..2] == ", " && (", " + rest)[2..] == rest;
      assert pols[0] + "-" + Join("-", pols[1..]) == pols[0] + ("-" + Join("-", pols[1..]));
    }
  }

  /** The date text used in names, by the `date_format` option. */
  function DateOut(dateFormat: string, stamp: string): (r: Option<string>)
    ensures r.Some? <==> Lower(dateFormat) in DateFormatNames
    ensures Lower(dateFormat) == "compact" ==> r == Some(CompactDate(stamp))
    ensures Lower(dateFormat) == "unique" ==> r == Some(UniqueDate(stamp))
  {
    if Lower(dateFormat) == "compact" then Some(CompactDate(stamp))
    else if Lower(dateFormat) == "unique" then Some(UniqueDate(stamp))
    else None
  }

  /** Whatever the spelling of the options, the compact date is the first
      eight characters of the unique date. */
  lemma CompactDateOut(compact: string, unique: string, stamp: string)
    requires Lower(compact) == "compact" && Lower(unique) == "unique"
    ensures var c := DateOut(compact, stamp).value;
            var u := DateOut(unique, stamp).value;
            c <= u && |c| == if |u| <= 8 then |u| else 8
  {
  }

  // ---------------------------------------------------------------------
  // Output names
  // ---------------------------------------------------------------------

  /** The body of the format-3 loop, with its parameters in the order the
      loop names them. */
  function Format3Body(prefix: string, pname: string, beam: string, date: string, orbdir: string): string {
    prefix + pname + "_" + date + "_" + beam + "_" + orbdir + ".pix"
  }

  /** The output name of one scene under one of the five formats. */
  function OutputName(format: int, prefix: string, s: Scene, date: string): (r: Option<string>)
    ensures r.Some? <==> 1 <= format <= 5
    ensures r.Some? ==> EndsWith(r.value, ".pix")
    ensures format == 1 ==> r == Some(prefix + s.sourceId + ".pix")
  {
    var pname := PlatformAbbrev(s.platform);
    var orbdir := OrbitAbbrev(s.orbit);
    var pol := PolarizationAbbrev(s.polarizations);
    var name :=
      if format == 1 then prefix + s.sourceId + ".pix"
      // zip(PlatformName2, date_out, BeamMode2, Orbit_Direction2) bound to
      // (pname, beam, date, orbdir): the date lands in `beam`
      else if format == 3 then Format3Body(prefix, pname, date, s.beamMode, orbdir)
      else if format == 2 then prefix + pname + "_" + date + ".pix"
      else if format == 4 then prefix + pname + "_" + date + "_" + s.beamMode + "_" + orbdir + "_" + s.productType + ".pix"
      else prefix + pname + "_" + date + "_" + s.beamMode + "_" + pol + "_" + orbdir + "_" + s.productType + ".pix";
    if 1 <= format <= 5 then
      assert name == name[..|name| - 4] + ".pix";
      EndsWithConcat(name[..|name| - 4], ".pix");
      Some(name)
    else None
  }

  /** Format 3 emits the beam mode before the date, although its loop names
      them the other way round. */
  lemma Format3Order(prefix: string, s: Scene, date: string)
    ensures OutputName(3, prefix, s, date)
         == Some(prefix + PlatformAbbrev(s.platform) + "_" + s.beamMode + "_" + date + "_" + OrbitAbbrev(s.orbit) + ".pix")
  {
  }

  /** Formats 4 and 5 extend format 2 with more `_`-separated fields;
      format 5 puts the `-`-joined polarisations between the beam mode and
      the orbit direction of format 4. */
  lemma FormatsExtend(prefix: string, s: Scene, date: string)
    ensures var base := prefix + PlatformAbbrev(s.platform) + "_" + date;
            && OutputName(2, prefix, s, date) == Some(base + ".pix")
            && OutputName(4, prefix, s, date)
               == Some(base + "_" + s.beamMode + "_" + OrbitAbbrev(s.orbit) + "_" + s.productType + ".pix")
            && OutputName(5, prefix, s, date)
               == Some(base + "_" + s.beamMode + "_" + PolarizationAbbrev(s.polarizations) + "_"
                       + OrbitAbbrev(s.orbit) + "_" + s.productType + ".pix")
  {
  }

  // ---------------------------------------------------------------------
  // Name collisions
  // ---------------------------------------------------------------------

  /** The name given when `name` is taken: the last four characters are
      dropped and `_count` appended, without an extension. */
  function Renamed(name: string, count: nat): (r: string)
    ensures |r| > 0 && IsDigit(r[|r| - 1])
    ensures StartsWith(r, DropLast(name, 4) + "_")
    ensures |r| == |DropLast(name, 4)| + 1 + |NatToString(count)|
    ensures AfterLast(r, '_') == NatToString(count)
  {
    var digits := NatToString(count);
    assert '_' !in digits by {
      assert forall k :: 0 <= k < |digits| ==> digits[k] != '_';
    }
    AfterLastConcat(DropLast(name, 4), '_', digits);
    DropLast(name, 4) + "_" + digits
  }

  /** A renamed output gives back its counter and the stem of the name it
      replaces: two renames agree only when both agree. */
  lemma RenamedInverse(a: string, i: nat, b: string, j: nat)
    requires Renamed(a, i) == Renamed(b, j)
    ensures i == j && DropLast(a, 4) == DropLast(b, 4)
  {
    NatToStringInjective(i, j);
    var r := Renamed(a, i);
    var sa := DropLast(a, 4) + "_";
    var sb := DropLast(b, 4) + "_";
    assert |sa| == |sb|;
    assert sa == r[..|sa|] == sb;
    assert DropLast(a, 4) == sa[..|sa| - 1] == sb[..|sb| - 1] == DropLast(b, 4);
  }

  /** A renamed output has no `.pix` extension, so it never takes the
      name of an output that kept its name. */
  lemma RenamedNotPix(name: string, count: nat)
    ensures !EndsWith(Renamed(name, count), ".pix")
  {
  }

  /** The output name of the `count`-th scene (counting from 1). The
      script tests `os.path.join(output_folder, name)`, so the output names
      in `existing` are the files of the output folder, named relative to
      it; the clip file and DEM checked by `Validate` are full paths. */
  function Target(name: string, count: nat, existing: set<string>): (r: string)
    ensures name !in existing ==> r == name
    ensures name in existing ==> r == Renamed(name, count)
  {
    if name in existing then Renamed(name, count) else name
  }

  /** The output names of the whole run. An ingested output exists by the
      time the next scene is checked, so it can push a later scene with the
      same name onto a renamed output. */
  function Targets(names: seq<string>, existing: set<string>, count: nat, writes: bool): (ts: seq<string>)
    ensures |ts| == |names|
  {
    TargetsWith(Target, names, existing, count, writes)
  }

  /** The same run for any rule `step` that names one output from its
      name, its position and the paths taken so far. */
  function TargetsWith(step: (string, nat, set<string>) -> string, names: seq<string>,
                       existing: set<string>, count: nat, writes: bool): (ts: seq<string>)
    ensures |ts| == |names|
    decreases |names|
  {
    if |names| == 0 then []
    else
      var t := step(names[0], count, existing);
      [t] + TargetsWith(step, names[1..], Written(existing, t, writes), count + 1, writes)
  }

  /** The paths that exist once output `t` is handled. */
  function Written(existing: set<string>, t: string, writes: bool): (r: set<string>)
    ensures t in r <==> writes || t in existing
    ensures existing <= r <= existing + {t}
  {
    if writes then existing + {t} else existing
  }

  /** The paths taken when a scene is checked: those that existed before
      the run and, when outputs are written, those written before it. */
  function Taken(existing: set<string>, before: seq<string>, writes: bool): (t: set<string>)
    ensures existing <= t
    ensures forall k :: 0 <= k < |before| ==> (before[k] in t <==> writes || before[k] in existing)
  {
    if writes then existing + (set x | x in before) else existing
  }

  /** Each output keeps its name when that name is free, judged against
      the existing paths and the outputs written before it, and is renamed
      with its own position otherwise. */
  lemma TargetsTaken(names: seq<string>, existing: set<string>, count: nat, writes: bool)
    ensures var ts := Targets(names, existing, count, writes);
            forall k :: 0 <= k < |names| ==>
              ts[k] == Target(names[k], count + k, Taken(existing, ts[..k], writes))
  {
    forall k | 0 <= k < |names|
      ensures var ts := Targets(names, existing, count, writes);
              ts[k] == Target(names[k], count + k, Taken(existing, ts[..k], writes))
    {
      TargetsTakenAt(Target, names, existing, count, writes, k);
    }
  }

  lemma {:induction false} TargetsTakenAt(step: (string, nat, set<string>) -> string, names: seq<string>,
                                          existing: set<string>, count: nat, writes: bool, k: nat)
    requires k < |names|
    ensures var ts := TargetsWith(step, names, existing, count, writes);
            ts[k] == step(names[k], count + k, Taken(existing, ts[..k], writes))
    decreases k
  {
    var t := step(names[0], count, existing);
    var ex := Written(existing, t, writes);
    var ts := TargetsWith(step, names, existing, count, writes);
    var rest := TargetsWith(step, names[1..], ex, count + 1, writes);
    assert ts == [t] + rest;
    if k == 0 {
      assert ts[..0] == [];
      assert Taken(existing, [], writes) == existing;
    } else {
      var before := Taken(ex, rest[..k - 1], writes);
      assert rest[k - 1] == step(names[1..][k - 1], (count + 1) + (k - 1), before) by {
        TargetsTakenAt(step, names[1..], ex, count + 1, writes, k - 1);
      }
      assert names[1..][k - 1] == names[k] && (count + 1) + (k - 1) == count + k;
      assert Taken(existing, ts[..k], writes) == before by {
        TakenPrefix(existing, t, rest, k, writes);
      }
      assert ts[k] == rest[k - 1];
    }
  }

  /** The consequence used below: an output either keeps a name that did
      not exist before the run, or is renamed with its own position. */
  lemma TargetsShape(names: seq<string>, existing: set<string>, count: nat, writes: bool)
    ensures var ts := Targets(names, existing, count, writes);
            forall k :: 0 <= k < |names| ==>
              (ts[k] == names[k] && names[k] !in existing) || ts[k] == Renamed(names[k], count + k)
  {
    var ts := Targets(names, existing, count, writes);
    TargetsTaken(names, existing, count, writes);
    forall k | 0 <= k < |names|
      ensures (ts[k] == names[k] && names[k] !in existing) || ts[k] == Renamed(names[k], count + k)
    {
      var taken := Taken(existing, ts[..k], writes);
      assert ts[k] == Target(names[k], count + k, taken);
      assert existing <= taken;
    }
  }

  /** Writing `t` first and then `before` takes the same paths as writing
      `[t] + before`. */
  lemma TakenStep(existing: set<string>, t: string, before: seq<string>, writes: bool)
    ensures Taken(Written(existing, t, writes), before, writes)
         == Taken(existing, [t] + before, writes)
  {
  }

  /** The same step, stated for the first `k` outputs of `[t] + rest`. */
  lemma TakenPrefix(existing: set<string>, t: string, rest: seq<string>, k: nat, writes: bool)
    requires 0 < k <= |rest| + 1
    ensures Taken(Written(existing, t, writes), rest[..k - 1], writes)
         == Taken(existing, ([t] + rest)[..k], writes)
  {
    TakenStep(existing, t, rest[..k - 1], writes);
    assert ([t] + rest)[..k] == [t] + rest[..k - 1];
  }

  predicate AllPix(names: seq<string>) {
    forall k :: 0 <= k < |names| ==> EndsWith(names[k], ".pix")
  }

  /** When outputs are written, no two scenes are given the same output,
      provided every name ends in `.pix` (which every format ensures). */
  lemma TargetsDistinct(names: seq<string>, existing: set<string>, count: nat)
    requires AllPix(names)
    ensures var ts := Targets(names, existing, count, true);
            forall i, j :: 0 <= i < j < |ts| ==> ts[i] != ts[j]
  {
    var ts := Targets(names, existing, count, true);
    forall i, j | 0 <= i < j < |names|
      ensures ts[i] != ts[j]
    {
      assert ts[i] == names[i] || ts[i] == Renamed(names[i], count + i) by {
        TargetsTakenAt(Target, names, existing, count, true, i);
      }
      TargetsTakenAt(Target, names, existing, count, true, j);
      TargetPairDistinct(names, existing, count, ts, i, j);
    }
  }

  /** The pair `i < j` of the statement above, for outputs `ts` where the
      earlier one kept its name or was renamed with its own counter, and
      the later one was named against the paths taken before it. */
  lemma TargetPairDistinct(names: seq<string>, existing: set<string>, count: nat, ts: seq<string>, i: nat, j: nat)
    requires AllPix(names) && i < j < |names| == |ts|
    requires ts[i] == names[i] || ts[i] == Renamed(names[i], count + i)
    requires ts[j] == Target(names[j], count + j, Taken(existing, ts[..j], true))
    ensures ts[i] != ts[j]
  {
    var taken := Taken(existing, ts[..j], true);
    if names[j] in taken {
      assert EndsWith(names[i], ".pix");
      RenamedLater(names[i], count + i, ts[i], names[j], count + j);
    } else {
      assert ts[..j][i] == ts[i];
    }
  }

  /** An output that kept a `.pix` name, or was renamed with counter `m`,
      is not the renamed name of another scene with counter `n != m`. */
  lemma RenamedLater(a: string, m: nat, t: string, b: string, n: nat)
    requires EndsWith(a, ".pix") && m != n
    requires t == a || t == Renamed(a, m)
    ensures t != Renamed(b, n)
  {
    if t == a {
      RenamedNotPix(b, n);
    } else if t == Renamed(b, n) {
      RenamedInverse(a, m, b, n);
    }
  }

  // ---------------------------------------------------------------------
  // The whole run
  // ---------------------------------------------------------------------

  function NamesOf(format: int, prefix: string, dateFormat: string, scenes: seq<Scene>): (r: Option<seq<string>>)
    ensures r.Some? <==> (1 <= format <= 5 && (|scenes| == 0 || Lower(dateFormat) in DateFormatNames))
    ensures r.Some? ==> |r.value| == |scenes| && AllPix(r.value)
    ensures r.Some? ==> forall i :: 0 <= i < |scenes| ==>
              && DateOut(dateFormat, scenes[i].dateTime).Some?
              && Some(r.value[i]) == OutputName(format, prefix, scenes[i], DateOut(dateFormat, scenes[i].dateTime).value)
    decreases |scenes|
  {
    if |scenes| == 0 then (if 1 <= format <= 5 then Some([]) else None)
    else
      match DateOut(dateFormat, scenes[0].dateTime)
      case None => None
      case Some(date) =>
        match OutputName(format, prefix, scenes[0], date)
        case None => None
        case Some(n) =>
          match NamesOf(format, prefix, dateFormat, scenes[1..])
          case None => None
          case Some(ns) => Some([n] + ns)
  }

  /** Validation, names and collision handling for the scenes found; the
      result is the output name of every scene, in order. */
  function Run(o: Options, existing: set<string>, prefix: string, scenes: seq<Scene>): (r: Result<seq<string>>)
    ensures r.Ok? <==> Validate(o, existing, |scenes|).Ok?
    ensures r.Ok? ==> |r.value| == |scenes|
    ensures r.Ok? && Writes(o) ==> forall i, j :: 0 <= i < j < |r.value| ==> r.value[i] != r.value[j]
    ensures r.Ok? ==>
              var names := NamesOf(o.format, prefix, o.dateFormat, scenes);
              && names.Some?
              && forall i :: 0 <= i < |scenes| ==>
                   r.value[i] == Target(names.value[i], 1 + i, Taken(existing, r.value[..i], Writes(o)))
  {
    match Validate(o, existing, |scenes|)
    case Abort(e) => Abort(e)
    case Ok(_) =>
      match NamesOf(o.format, prefix, o.dateFormat, scenes)
      case None => assert false; Abort("")
      case Some(names) =>
        var ts := Targets(names, existing, 1, Writes(o));
        TargetsTaken(names, existing, 1, Writes(o));
        if Writes(o) then
          TargetsDistinct(names, existing, 1);
          assert ts == Targets(names, existing, 1, true);
          Ok(ts)
        else Ok(ts)
  }
}
