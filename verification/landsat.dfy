/** Batch Landsat ingestion with clipping
    (`Batch_FIMPORT_Landsat_with_clip.py`): the option checks, the rewrite
    of a Windows path into the `file:/` form the importer reads, the date
    and the three working output-name formats, the MS (or MS + thermal)
    import of every scene, the panchromatic import of the Landsat-8 and
    Landsat-9 scenes, and the list of clipped files. */
module Landsat {
  import opened Wrappers
  import opened Text
  import opened Flags
  import opened DateFormats
  import WinPath
  import opened Messages

  /** The messages this script stops with. */
  const BothImportKinds: string := "import_MS_Thermal and import_MS are selection"
  const PathTooShort: string := "string index out of range"
  const ImportTypeUndefined: string := "name 'import_type' is not defined"
  const ChooseAnotherFormat: string := "choose another value"

  /** The options as written at the top of the script. */
  datatype Options = Options(inputMode: int, format: int, ms: string, thermal: string,
                             pan: string, clip: string, deleteOriginal: string)

  /** The five yes/no options, each lowered and looked up in the script's
      list. */
  datatype Switches = Switches(ms: bool, thermal: bool, pan: bool, clip: bool, deleteOriginal: bool)

  function SwitchesOf(o: Options): (w: Switches)
    ensures w.ms == YesFlag(LandsatYes, o.ms) && w.thermal == YesFlag(LandsatYes, o.thermal)
    ensures w.pan == YesFlag(LandsatYes, o.pan) && w.clip == YesFlag(LandsatYes, o.clip)
    ensures w.deleteOriginal == YesFlag(LandsatYes, o.deleteOriginal)
  {
    Switches(YesFlag(LandsatYes, o.ms), YesFlag(LandsatYes, o.thermal), YesFlag(LandsatYes, o.pan),
             YesFlag(LandsatYes, o.clip), YesFlag(LandsatYes, o.deleteOriginal))
  }

  /** The options once parsed: the import type and output suffix of the
      chosen MS product, and the three other switches. */
  datatype Plan = Plan(importType: string, suffix: string, pan: bool, clip: bool, deleteOriginal: bool)

  /** The checks of the script, in the order they run. `found` is the number
      of files listed by the MFILE or found by the search, and
      `pathsReadable` whether every listed path has a first character for
      the path rewrite. With neither MS option on, the import type is never
      bound and the metadata step stops on the undefined name; format 2
      passes the first check but has no naming branch. */
  function Validate(inputMode: int, format: int, w: Switches, found: nat, clipLayerExists: bool,
                    pathsReadable: bool): (r: Result<Plan>)
    ensures r.Ok? <==>
      && (inputMode == 1 || inputMode == 2)
      && found > 0
      && (format == 1 || format == 3 || format == 4)
      && w.ms != w.thermal
      && (w.clip ==> clipLayerExists)
      && pathsReadable
    ensures r.Ok? ==> (r.value.importType == "?t=MS" <==> w.ms)
    ensures r.Ok? ==> (r.value.importType == "?t=MS_Thermal" <==> w.thermal)
    ensures r.Ok? ==> ((r.value.importType == "?t=MS" && r.value.suffix == "_MS.pix")
                    || (r.value.importType == "?t=MS_Thermal" && r.value.suffix == "_MS_Thermal.pix"))
    ensures r.Ok? ==> r.value.pan == w.pan && r.value.clip == w.clip && r.value.deleteOriginal == w.deleteOriginal
  {
    if inputMode != 1 && inputMode != 2 then
      Abort(BadInputMode)
    else if found == 0 then Abort(NoFilesFound)
    else if format !in {1, 2, 3, 4} then Abort(FormatUndefined)
    else if w.ms && w.thermal then Abort(BothImportKinds)
    else if w.clip && !clipLayerExists then Abort(ClipLayerMissing)
    else if !pathsReadable then Abort(PathTooShort)
    else if !w.ms && !w.thermal then Abort(ImportTypeUndefined)
    else if format == 2 then Abort(ChooseAnotherFormat)
    else if w.thermal then Ok(Plan("?t=MS_Thermal", "_MS_Thermal.pix", w.pan, w.clip, w.deleteOriginal))
    else Ok(Plan("?t=MS", "_MS.pix", w.pan, w.clip, w.deleteOriginal))
  }

  /** Both MS options on stop the run, and so does neither. */
  lemma ExactlyOneMsProduct(o: Options, found: nat, clipLayerExists: bool, pathsReadable: bool)
    ensures var w := SwitchesOf(o);
            Validate(o.inputMode, o.format, w, found, clipLayerExists, pathsReadable).Ok? ==>
              (YesFlag(LandsatYes, o.ms) <==> !YesFlag(LandsatYes, o.thermal))
  {
  }

  // ---------------------------------------------------------------------
  // Paths as the importer reads them
  // ---------------------------------------------------------------------

  /** `"file:/" + p[0] + "%3A/" + p[3:]`, then every `\` doubled into
      `//`. The first character is read even when it is not a drive
      letter; an empty path has no first character and stops the run. */
  function UrlPath(p: string): (r: Option<string>)
    ensures r.Some? <==> |p| > 0
    ensures r.Some? ==> '\\' !in r.value
  {
    if |p| == 0 then None
    else
      var u := "file:/" + [p[0]] + "%3A/" + Drop(p, 3);
      ReplaceCharRemoves(u, '\\', "//");
      Some(ReplaceAll(u, "\\", "//"))
  }

  /** A drive path `X:\rest` becomes `file:/X%3A/` followed by the rest
      with its separators doubled. */
  lemma UrlOfDrivePath(d: char, rest: string)
    requires d != '\\'
    ensures UrlPath([d] + ":\\" + rest) == Some("file:/" + [d] + "%3A/" + ReplaceAll(rest, "\\", "//"))
  {
    var p := [d] + ":\\" + rest;
    assert Drop(p, 3) == rest;
    var head := "file:/" + [d] + "%3A/";
    assert '\\' !in head;
    ReplaceCharAbsent(head, '\\', "//");
    ReplaceCharConcat(head, rest, "\\", "//");
  }

  /** Doubling the separators loses nothing: a rest without `/` is read
      back by turning every `//` into `\` again. */
  lemma {:induction false} DoubledSeparatorsRoundTrip(rest: string)
    requires '/' !in rest
    ensures ReplaceAll(ReplaceAll(rest, "\\", "//"), "//", "\\") == rest
    decreases |rest|
  {
    if |rest| > 0 {
      var c := rest[0];
      var t := ReplaceAll(rest[1..], "\\", "//");
      DoubledSeparatorsRoundTrip(rest[1..]);
      if c == '\\' {
        assert rest[..1] == "\\";
        assert ReplaceAll(rest, "\\", "//") == "//" + t;
        assert ("//" + t)[..2] == "//" && ("//" + t)[2..] == t;
        assert rest == [c] + rest[1..];
      } else {
        assert rest[..1] != "\\";
        assert ReplaceAll(rest, "\\", "//") == [c] + t;
        assert c == rest[0] && c != '/';
        if |t| >= 1 {
          assert ([c] + t)[..2][0] == c;
          assert ([c] + t)[..2] != "//";
          assert ([c] + t)[1..] == t;
        } else {
          EmptyReplace(rest[1..]);
        }
        assert rest == [c] + rest[1..];
      }
    }
  }

  lemma EmptyReplace(s: string)
    ensures |ReplaceAll(s, "\\", "//")| == 0 ==> |s| == 0
  {
  }

  // ---------------------------------------------------------------------
  // Output names
  // ---------------------------------------------------------------------

  /** The metadata read from one scene. */
  datatype Scene = Scene(path: string, dateTime: string, productId: string, platform: string,
                         sourceId: string, wrsPath: string, wrsRow: string)

  /** The output name of one scene for the three formats that have a
      naming branch; no extension is added. */
  function BaseName(format: int, prefix: string, s: Scene): (r: Option<string>)
    ensures r.Some? <==> format == 1 || format == 3 || format == 4
    ensures format == 1 ==> r == Some(prefix + s.productId)
  {
    var date := ReplacedDate(s.dateTime);
    if format == 1 then Some(prefix + s.productId)
    else if format == 3 then
      Some(prefix + date + "_" + s.platform + "_path" + s.wrsPath + "_row" + s.wrsRow)
    else if format == 4 then Some(prefix + date + "_" + s.sourceId)
    else None
  }

  /** Formats 3 and 4 start with the `YYYYMMDD` acquisition date. */
  lemma NamesStartWithDate(prefix: string, s: Scene, st: Stamp)
    requires WellFormed(st) && s.dateTime == Render(st)
    ensures BaseName(3, prefix, s) == Some(prefix + DateDigits(st) + "_" + s.platform
                                           + "_path" + s.wrsPath + "_row" + s.wrsRow)
    ensures BaseName(4, prefix, s) == Some(prefix + DateDigits(st) + "_" + s.sourceId)
  {
    ReplacedDateOfStamp(st);
  }

  /** The platforms that carry a panchromatic band. */
  predicate HasPan(platform: string) {
    platform == "Landsat-8" || platform == "Landsat-9"
  }

  // ---------------------------------------------------------------------
  // Imports and clipping
  // ---------------------------------------------------------------------

  /** The MS import of one scene: the rewritten path with the import type,
      and the output name joined onto the folder with the MS suffix. */
  function MsImport(p: Plan, out: string, url: string, name: string): (string, string) {
    (url + p.importType, WinPath.Join(out, name) + p.suffix)
  }

  /** The panchromatic import of one scene. */
  function PanImport(out: string, url: string, name: string): (string, string) {
    (url + "?t=PAN", WinPath.Join(out, name) + "_PAN.pix")
  }

  /** The imports of the scenes, in scene order. */
  datatype Imports = Imports(ms: seq<(string, string)>, pan: seq<(string, string)>)

  /** The panchromatic imports: one per Landsat-8 or Landsat-9 scene, in
      scene order. */
  function PanImports(out: string, urls: seq<string>, names: seq<string>, scenes: seq<Scene>)
    : (r: seq<(string, string)>)
    requires |urls| == |names| == |scenes|
    ensures |r| <= |scenes|
    decreases |scenes|
  {
    if |scenes| == 0 then []
    else
      (if HasPan(scenes[0].platform) then [PanImport(out, urls[0], names[0])] else [])
        + PanImports(out, urls[1..], names[1..], scenes[1..])
  }

  /** A panchromatic import is made exactly for the scenes whose platform
      has the band. */
  lemma {:induction false} PanImportsMembers(out: string, urls: seq<string>, names: seq<string>, scenes: seq<Scene>)
    requires |urls| == |names| == |scenes|
    ensures forall x :: x in PanImports(out, urls, names, scenes) <==>
      exists i :: 0 <= i < |scenes| && HasPan(scenes[i].platform) && x == PanImport(out, urls[i], names[i])
    decreases |scenes|
  {
    if |scenes| > 0 {
      var r := PanImports(out, urls, names, scenes);
      var rest := PanImports(out, urls[1..], names[1..], scenes[1..]);
      PanImportsMembers(out, urls[1..], names[1..], scenes[1..]);
      forall x
        ensures x in r <==> exists i :: 0 <= i < |scenes| && HasPan(scenes[i].platform)
                                        && x == PanImport(out, urls[i], names[i])
      {
        if x in rest {
          var j :| 0 <= j < |scenes[1..]| && HasPan(scenes[1..][j].platform)
                   && x == PanImport(out, urls[1..][j], names[1..][j]);
          assert scenes[j + 1] == scenes[1..][j] && urls[j + 1] == urls[1..][j] && names[j + 1] == names[1..][j];
        }
        if exists i :: 0 <= i < |scenes| && HasPan(scenes[i].platform) && x == PanImport(out, urls[i], names[i]) {
          var i :| 0 <= i < |scenes| && HasPan(scenes[i].platform) && x == PanImport(out, urls[i], names[i]);
          if i > 0 {
            assert scenes[1..][i - 1] == scenes[i] && urls[1..][i - 1] == urls[i] && names[1..][i - 1] == names[i];
          }
        }
      }
    }
  }

  function ImportAll(p: Plan, out: string, urls: seq<string>, names: seq<string>, scenes: seq<Scene>): (r: Imports)
    requires |urls| == |names| == |scenes|
    ensures |r.ms| == |scenes|
    ensures forall i :: 0 <= i < |scenes| ==> r.ms[i] == MsImport(p, out, urls[i], names[i])
    ensures !p.pan ==> r.pan == []
    ensures p.pan ==> r.pan == PanImports(out, urls, names, scenes)
  {
    Imports(seq(|scenes|, i requires 0 <= i < |scenes| => MsImport(p, out, urls[i], names[i])),
            if p.pan then PanImports(out, urls, names, scenes) else [])
  }

  /** The files the clipping step processes: every MS output, then every
      panchromatic output. */
  function ClipInputs(im: Imports): (r: seq<string>)
    ensures |r| == |im.ms| + |im.pan|
    ensures forall i :: 0 <= i < |im.ms| ==> r[i] == im.ms[i].1
    ensures forall j :: 0 <= j < |im.pan| ==> r[|im.ms| + j] == im.pan[j].1
  {
    seq(|im.ms|, i requires 0 <= i < |im.ms| => im.ms[i].1)
      + seq(|im.pan|, j requires 0 <= j < |im.pan| => im.pan[j].1)
  }

  /** The clipped copy of a file: `s` + its file name, in the output folder. */
  function ClipOf(out: string, f: string): string {
    WinPath.Join(out, "s" + WinPath.Basename(f))
  }

  /** An MS output of a plain name sits in the output folder under the name
      plus the suffix, and its clipped copy under `s` + that name. */
  lemma ClipOfMs(p: Plan, out: string, url: string, name: string)
    requires WinPath.PlainName(name) && WinPath.PlainName(p.suffix)
    ensures WinPath.Basename(MsImport(p, out, url, name).1) == name + p.suffix
    ensures WinPath.Basename(ClipOf(out, MsImport(p, out, url, name).1)) == "s" + (name + p.suffix)
  {
    SuffixedBasename(out, name, p.suffix);
    ClipBasename(out, MsImport(p, out, url, name).1, name + p.suffix);
  }

  lemma SuffixedBasename(out: string, name: string, suffix: string)
    requires WinPath.PlainName(name) && WinPath.PlainName(suffix)
    ensures WinPath.PlainName(name + suffix)
    ensures WinPath.Basename(WinPath.Join(out, name) + suffix) == name + suffix
  {
    WinPath.PlainConcat(name, suffix);
    WinPath.AppendToJoin(out, name, suffix);
    WinPath.BasenameOfJoin(out, name + suffix);
  }

  lemma ClipBasename(out: string, f: string, b: string)
    requires WinPath.Basename(f) == b && WinPath.PlainName(b)
    ensures WinPath.Basename(ClipOf(out, f)) == "s" + b
  {
    assert WinPath.PlainName("s");
    WinPath.PlainConcat("s", b);
    WinPath.BasenameOfJoin(out, "s" + b);
  }

  /** The whole run after discovery: the checks, the path rewrite, the
      names and the imports. */
  function Run(o: Options, clipLayerExists: bool, out: string, prefix: string, scenes: seq<Scene>)
    : (r: Result<Imports>)
    ensures r.Ok? <==> Validate(o.inputMode, o.format, SwitchesOf(o), |scenes|, clipLayerExists,
                                Readable(scenes)).Ok?
    ensures r.Ok? ==> |r.value.ms| == |scenes|
    ensures r.Ok? ==>
              var plan := Validate(o.inputMode, o.format, SwitchesOf(o), |scenes|, clipLayerExists,
                                   Readable(scenes)).value;
              forall i :: 0 <= i < |scenes| ==>
                && UrlPath(scenes[i].path).Some? && BaseName(o.format, prefix, scenes[i]).Some?
                && r.value.ms[i] == MsImport(plan, out, UrlPath(scenes[i].path).value,
                                             BaseName(o.format, prefix, scenes[i]).value)
    ensures r.Ok? ==>
              var plan := Validate(o.inputMode, o.format, SwitchesOf(o), |scenes|, clipLayerExists,
                                   Readable(scenes)).value;
              forall x :: x in r.value.pan <==>
                plan.pan && (exists i :: 0 <= i < |scenes| && HasPan(scenes[i].platform)
                                      && x == PanImport(out, UrlPath(scenes[i].path).value,
                                                        BaseName(o.format, prefix, scenes[i]).value))
    ensures r.Ok? ==>
              var plan := Validate(o.inputMode, o.format, SwitchesOf(o), |scenes|, clipLayerExists,
                                   Readable(scenes)).value;
              var urls := seq(|scenes|, i requires 0 <= i < |scenes| => UrlPath(scenes[i].path).value);
              var names := seq(|scenes|, i requires 0 <= i < |scenes| => BaseName(o.format, prefix, scenes[i]).value);
              r.value.pan == if plan.pan then PanImports(out, urls, names, scenes) else []
    ensures r.Ok? ==> forall x :: x in r.value.pan ==> EndsWith(x.1, "_PAN.pix")
  {
    match Validate(o.inputMode, o.format, SwitchesOf(o), |scenes|, clipLayerExists, Readable(scenes))
    case Abort(e) => Abort(e)
    case Ok(plan) =>
      var urls := seq(|scenes|, i requires 0 <= i < |scenes| => UrlPath(scenes[i].path).value);
      var names := seq(|scenes|, i requires 0 <= i < |scenes| => BaseName(o.format, prefix, scenes[i]).value);
      var im := ImportAll(plan, out, urls, names, scenes);
      PanEnds(plan, out, urls, names, scenes);
      PanImportsMembers(out, urls, names, scenes);
      Ok(im)
  }

  /** Every listed path has a first character. */
  predicate Readable(scenes: seq<Scene>) {
    forall i :: 0 <= i < |scenes| ==> |scenes[i].path| > 0
  }

  lemma PanEnds(p: Plan, out: string, urls: seq<string>, names: seq<string>, scenes: seq<Scene>)
    requires |urls| == |names| == |scenes|
    ensures forall x :: x in ImportAll(p, out, urls, names, scenes).pan ==> EndsWith(x.1, "_PAN.pix")
  {
    forall x | x in ImportAll(p, out, urls, names, scenes).pan
      ensures EndsWith(x.1, "_PAN.pix")
    {
      PanImportsMembers(out, urls, names, scenes);
      var i :| 0 <= i < |scenes| && HasPan(scenes[i].platform) && x == PanImport(out, urls[i], names[i]);
      EndsWithConcat(WinPath.Join(out, names[i]), "_PAN.pix");
    }
  }
}
