/** Batch Sentinel-2 ingestion with band merging
    (`Batch_FIMPORT_Sentinel2_with_Band_Merge_v2.py`): the option checks,
    the platform and processing-level abbreviations, the two output-name
    formats, the expansion of each scene into one import per selected band
    group, and the names of the clipped, copied and resampled files. */
module S2BandMerge {
  import opened Wrappers
  import opened Blocks
  import opened Text
  import opened Flags
  import opened DateFormats
  import WinPath
  import opened Messages

  /** The messages this script stops with. */
  const NoManifests: string := "No files found"
  const NoBandGroup: string := "At least one band groups (10, 20 or 60m) must be set to yes"
  const MergeNeeds10m: string := "The 10m bands must be set to yes when Merge_20m_bands_to_10m_bands is set to yes"
  const MergeNeeds20m: string := "The 20m bands must be set to yes when Merge_20m_bands_to_10m_bands is set to yes"

  /** The options as written at the top of the script. */
  datatype Options = Options(bands10: string, bands20: string, bands60: string,
                             clip: string, merge: string)

  /** The options once parsed. */
  datatype Plan = Plan(g10: bool, g20: bool, g60: bool, clip: bool, merge: bool)

  /** How the options are read. The band and clip options are lowered
      before the lookup; the merge option is not. */
  function Parse(o: Options): (p: Plan)
    ensures p.g10 == YesFlag(Sentinel2Yes, o.bands10)
    ensures p.g20 == YesFlag(Sentinel2Yes, o.bands20)
    ensures p.g60 == YesFlag(Sentinel2Yes, o.bands60)
    ensures p.clip == YesFlag(Sentinel2Yes, o.clip)
    ensures p.merge == ExactFlag(Sentinel2Yes, o.merge)
  {
    Plan(YesFlag(Sentinel2Yes, o.bands10), YesFlag(Sentinel2Yes, o.bands20), YesFlag(Sentinel2Yes, o.bands60),
         YesFlag(Sentinel2Yes, o.clip), ExactFlag(Sentinel2Yes, o.merge))
  }

  /** The early validation. `found` is the number of discovered
      `manifest.safe` files and `clipLayerExists` whether the AOI layer is a
      file. The run goes on with the parsed options exactly when some file
      was found, some band group is selected, merging has both the 10 m
      and the 20 m group, and a requested clip layer exists. */
  function Validate(o: Options, found: nat, clipLayerExists: bool): (r: Result<Plan>)
    ensures var p := Parse(o);
            r.Ok? <==> found > 0 && (p.g10 || p.g20 || p.g60) && (p.merge ==> p.g10 && p.g20)
                       && (p.clip ==> clipLayerExists)
    ensures r.Ok? ==> r.value == Parse(o)
    ensures found == 0 ==> r == Abort(NoManifests)
  {
    var p := Parse(o);
    if found == 0 then Abort(NoManifests)
    else if !p.g10 && !p.g20 && !p.g60 then Abort(NoBandGroup)
    else if p.merge && !p.g10 then Abort(MergeNeeds10m)
    else if p.merge && !p.g20 then Abort(MergeNeeds20m)
    else if p.clip && !clipLayerExists then Abort(ClipLayerMissing)
    else Ok(p)
  }

  /** `"Yes"` selects a band group but does not switch the merge on, so it
      never trips the merge checks. */
  lemma MergeSpelling(found: nat)
    requires found > 0
    ensures var r := Validate(Options("Yes", "no", "no", "no", "Yes"), found, false);
            r.Ok? && r.value.g10 && !r.value.merge
  {
    MergeFlagIsCaseSensitive();
    assert Lower("no") == "no";
  }

  // ---------------------------------------------------------------------
  // Metadata and output names
  // ---------------------------------------------------------------------

  /** The metadata read from one scene. */
  datatype Scene = Scene(path: string, dateTime: string, platform: string,
                         level: string, sourceId: string)

  function PlatformAbbrev(platform: string): (r: string)
    ensures r == "S2" <==> platform == "Sentinel-2" || platform == "S2"
    ensures platform != "Sentinel-2" ==> r == platform
  {
    if platform == "Sentinel-2" then "S2" else platform
  }

  function LevelAbbrev(level: string): (r: string)
    ensures r == "L1C" <==> level == "Level-1C" || level == "L1C"
    ensures r == "L2A" <==> level == "Level-2A" || level == "L2A"
    ensures level != "Level-1C" && level != "Level-2A" ==> r == level
  {
    if level == "Level-1C" then "L1C"
    else if level == "Level-2A" then "L2A"
    else level
  }

  /** An abbreviation is never abbreviated further. */
  lemma AbbrevIdempotent(platform: string, level: string)
    ensures PlatformAbbrev(PlatformAbbrev(platform)) == PlatformAbbrev(platform)
    ensures LevelAbbrev(LevelAbbrev(level)) == LevelAbbrev(level)
  {
  }

  /** The name of one scene for formats 1 and 2; no extension is added. */
  function BaseName(format: int, prefix: string, s: Scene): (r: Option<string>)
    ensures r.Some? <==> format == 1 || format == 2
    ensures format == 1 ==> r == Some(prefix + s.sourceId)
  {
    if format == 1 then Some(prefix + s.sourceId)
    else if format == 2 then
      Some(prefix + PlatformAbbrev(s.platform) + "_" + UniqueDate(s.dateTime) + "_" + LevelAbbrev(s.level))
    else None
  }

  /** For a timestamp of the usual form, format 2 spells out the date, the
      time with its fraction, and the level, separated by `_`. */
  lemma Format2Fields(prefix: string, s: Scene, st: Stamp)
    requires WellFormed(st) && s.dateTime == Render(st)
    ensures BaseName(2, prefix, s) == Some(prefix + PlatformAbbrev(s.platform) + "_"
      + DateDigits(st) + "_" + TimeDigits(st) + "_" + LevelAbbrev(s.level))
  {
    UniqueOfStamp(st);
    var head := prefix + PlatformAbbrev(s.platform) + "_";
    var lev := LevelAbbrev(s.level);
    var u := UniqueDate(s.dateTime);
    assert u == DateDigits(st) + ("_" + TimeDigits(st));
    assert head + u + "_" + lev == head + DateDigits(st) + "_" + TimeDigits(st) + "_" + lev;
  }

  /** The output names of all scenes. Any other format leaves the list
      empty, and with it the list of imports. */
  function BaseNames(format: int, prefix: string, scenes: seq<Scene>): (r: seq<string>)
    ensures format == 1 || format == 2 ==> |r| == |scenes|
    ensures format != 1 && format != 2 ==> r == []
    ensures forall i :: 0 <= i < |r| ==> Some(r[i]) == BaseName(format, prefix, scenes[i])
  {
    if format == 1 || format == 2 then
      seq(|scenes|, i requires 0 <= i < |scenes| => BaseName(format, prefix, scenes[i]).value)
    else []
  }

  // ---------------------------------------------------------------------
  // Band-group expansion
  // ---------------------------------------------------------------------

  datatype Group = G10 | G20 | G60

  function Rank(g: Group): nat {
    match g
    case G10 => 0
    case G20 => 1
    case G60 => 2
  }

  /** The resolution digits of a group. */
  function Tag(g: Group): (t: string)
    ensures |t| == 2 && AllDigits(t)
  {
    match g
    case G10 => "10"
    case G20 => "20"
    case G60 => "60"
  }

  /** The selected groups, always in the order 10, 20, 60. */
  function Enabled(p: Plan): (gs: seq<Group>)
    ensures G10 in gs <==> p.g10
    ensures G20 in gs <==> p.g20
    ensures G60 in gs <==> p.g60
    ensures forall i, j :: 0 <= i < j < |gs| ==> Rank(gs[i]) < Rank(gs[j])
  {
    (if p.g10 then [G10] else []) + (if p.g20 then [G20] else []) + (if p.g60 then [G60] else [])
  }

  /** The vendor's name of one band group of a product. */
  function InputOf(path: string, g: Group): string {
    path + ":Band Resolution:" + Tag(g) + "M"
  }

  function OutputName(name: string, g: Group): string {
    name + "_" + Tag(g) + "m.pix"
  }

  function OutputOf(out: string, name: string, g: Group): string {
    WinPath.Join(out, OutputName(name, g))
  }

  /** One import: band group `g` of the product at `path`, written under
      the base name `name`. The importer is called with `Input(imp)` and
      `Output(out, imp)`. */
  datatype Import = Import(path: string, name: string, g: Group)

  function Input(imp: Import): string {
    InputOf(imp.path, imp.g)
  }

  function Output(out: string, imp: Import): string {
    OutputOf(out, imp.name, imp.g)
  }

  /** The imports of one scene: one per selected group, in group order. */
  function SceneImports(path: string, name: string, gs: seq<Group>): (r: seq<Import>)
    ensures |r| == |gs|
    ensures forall k :: 0 <= k < |gs| ==> r[k] == Import(path, name, gs[k])
  {
    seq(|gs|, k requires 0 <= k < |gs| => Import(path, name, gs[k]))
  }

  /** The paired input and output lists: the scenes in order and, within a
      scene, its selected groups. Like `zip`, it stops at the shorter of the
      path and name lists. */
  function Expand(paths: seq<string>, names: seq<string>, gs: seq<Group>): (r: seq<Import>)
    ensures |r| == (if |paths| <= |names| then |paths| else |names|) * |gs|
  {
    var blocks := SceneBlocks(paths, names, gs);
    FlattenLength(blocks, |gs|);
    Flatten(blocks)
  }

  function SceneBlocks(paths: seq<string>, names: seq<string>, gs: seq<Group>): (r: seq<seq<Import>>)
    ensures |r| == if |paths| <= |names| then |paths| else |names|
    ensures forall i :: 0 <= i < |r| ==> r[i] == SceneImports(paths[i], names[i], gs) && |r[i]| == |gs|
  {
    var m := if |paths| <= |names| then |paths| else |names|;
    seq(m, i requires 0 <= i < m => SceneImports(paths[i], names[i], gs))
  }

  /** Entry `i * |gs| + k` of the expansion is group `gs[k]` of scene `i`. */
  lemma ExpandAt(paths: seq<string>, names: seq<string>, gs: seq<Group>, i: nat, k: nat)
    requires i < |paths| && i < |names| && k < |gs|
    ensures i * |gs| + k < |Expand(paths, names, gs)|
    ensures Expand(paths, names, gs)[i * |gs| + k] == Import(paths[i], names[i], gs[k])
  {
    FlattenAt(SceneBlocks(paths, names, gs), |gs|, i, k);
  }

  /** The imports the run performs. */
  function Imports(p: Plan, format: int, prefix: string, scenes: seq<Scene>): (r: seq<Import>)
    ensures format == 1 || format == 2 ==> |r| == |scenes| * |Enabled(p)|
    ensures format != 1 && format != 2 ==> r == []
  {
    var paths := seq(|scenes|, i requires 0 <= i < |scenes| => scenes[i].path);
    Expand(paths, BaseNames(format, prefix, scenes), Enabled(p))
  }

  /** Every import of a scene reads one group of the scene's product and
      writes the file the scene's name and that group call for. */
  lemma ImportsOfScene(p: Plan, format: int, prefix: string, scenes: seq<Scene>, i: nat, k: nat)
    requires format == 1 || format == 2
    requires i < |scenes| && k < |Enabled(p)|
    ensures var gs := Enabled(p);
            var names := BaseNames(format, prefix, scenes);
            Slot(i, |gs|, k) < |Imports(p, format, prefix, scenes)|
            && Imports(p, format, prefix, scenes)[Slot(i, |gs|, k)] == Import(scenes[i].path, names[i], gs[k])
  {
    var paths := seq(|scenes|, i requires 0 <= i < |scenes| => scenes[i].path);
    ExpandAt(paths, BaseNames(format, prefix, scenes), Enabled(p), i, k);
  }

  /** The file name of an output, in the output folder. */
  lemma OutputBasename(out: string, name: string, g: Group)
    requires WinPath.PlainName(name)
    ensures WinPath.PlainName(OutputName(name, g))
    ensures WinPath.Basename(OutputOf(out, name, g)) == OutputName(name, g)
  {
    var tail := "_" + Tag(g) + "m.pix";
    assert WinPath.PlainName(tail);
    WinPath.PlainConcat(name, tail);
    assert OutputName(name, g) == name + tail;
    WinPath.BasenameOfJoin(out, OutputName(name, g));
  }

  /** A text put before the name ends up before the output name. */
  lemma PrefixedOutput(p: string, name: string, g: Group)
    ensures p + OutputName(name, g) == OutputName(p + name, g)
  {
  }

  // ---------------------------------------------------------------------
  // Clipping and merging
  // ---------------------------------------------------------------------

  /** The clipped copy of an ingested file: `s` + its file name, in the
      output folder. */
  function ClipOf(out: string, f: string): string {
    WinPath.Join(out, "s" + WinPath.Basename(f))
  }

  /** Clipping keeps the group ending, so after the full scenes are
      deleted the merge step finds the clipped files instead. */
  lemma ClipKeepsEnding(out: string, name: string, g: Group)
    requires WinPath.PlainName(name)
    ensures WinPath.Basename(ClipOf(out, OutputOf(out, name, g))) == OutputName("s" + name, g)
  {
    assert WinPath.PlainName("s");
    PrefixedBasename(out, "s", name, g);
  }

  /** A plain text put before the file name of an output, in the output
      folder, gives the output of the prefixed name. */
  lemma PrefixedBasename(out: string, p: string, name: string, g: Group)
    requires WinPath.PlainName(p) && WinPath.PlainName(name)
    ensures WinPath.Basename(WinPath.Join(out, p + WinPath.Basename(OutputOf(out, name, g)))) == OutputName(p + name, g)
  {
    var b := OutputName(name, g);
    OutputBasename(out, name, g);
    WinPath.PlainConcat(p, b);
    WinPath.BasenameOfJoin(out, p + b);
    PrefixedOutput(p, name, g);
  }

  /** `merged_` + the file name, in the output folder. */
  function CopyOf(out: string, f: string): string {
    WinPath.Join(out, "merged_" + WinPath.Basename(f))
  }

  /** The file name with `10m.pix` replaced by `20m.pix`, in the output
      folder. */
  function Source20Of(out: string, f: string): string {
    WinPath.Join(out, ReplaceAll(WinPath.Basename(f), "10m.pix", "20m.pix"))
  }

  /** The file name without its extension, plus `_resamp10m.pix`, in the
      output folder. */
  function ResampledOf(out: string, f: string): string {
    WinPath.Join(out, WinPath.Stem(f) + "_resamp10m.pix")
  }

  /** The merge step pairs the 10m output of a scene with the 20m output of
      the same scene, as long as the scene's name does not itself hold
      `10m.pix`. */
  lemma MergePairsScene(out: string, name: string)
    requires WinPath.PlainName(name) && !Contains(name, "10m.pix")
    ensures Source20Of(out, OutputOf(out, name, G10)) == OutputOf(out, name, G20)
  {
    OutputBasename(out, name, G10);
    Partner(name);
  }

  /** The same holds after clipping: the clipped 10m file is paired with
      the clipped 20m file. */
  lemma MergePairsClipped(out: string, name: string)
    requires WinPath.PlainName(name) && !Contains(name, "10m.pix")
    ensures Source20Of(out, ClipOf(out, OutputOf(out, name, G10))) == ClipOf(out, OutputOf(out, name, G20))
  {
    ClipKeepsEnding(out, name, G10);
    NotContainsCons('s', name, "10m.pix");
    Partner("s" + name);
    OutputBasename(out, name, G20);
    PrefixedOutput("s", name, G20);
  }

  /** The resampled 20m bands of a scene are written next to its 10m file
      as `<name>_10m_resamp10m.pix`. */
  lemma MergeResampled(out: string, name: string)
    requires WinPath.PlainName(name)
    ensures ResampledOf(out, OutputOf(out, name, G10)) == WinPath.Join(out, name + "_10m_resamp10m.pix")
  {
    ResampledShape(name);
    assert WinPath.PlainName("_10m");
    WinPath.PlainConcat(name, "_10m");
    assert WinPath.PlainName(".pix");
    WinPath.StemOfJoin(out, name + "_10m", ".pix");
  }

  lemma ResampledShape(name: string)
    ensures OutputName(name, G10) == (name + "_10m") + ".pix"
    ensures (name + "_10m") + "_resamp10m.pix" == name + "_10m_resamp10m.pix"
  {
  }

  /** `b.replace("10m.pix", "20m.pix")` on the 10m file name of a scene. */
  lemma Partner(name: string)
    requires !Contains(name, "10m.pix")
    ensures ReplaceAll(OutputName(name, G10), "10m.pix", "20m.pix") == OutputName(name, G20)
  {
    var pat := "10m.pix";
    var x := name + "_";
    assert OutputName(name, G10) == x + pat;
    forall i | 0 <= i < |x|
      ensures !OccursAt(x + pat, pat, i)
    {
      if i + |pat| <= |name| {
        assert (x + pat)[i..i + |pat|] == name[i..i + |pat|];
        if name[i..i + |pat|] == pat {
          ContainsAt(name, pat, i);
        }
      } else {
        UnderscoreBreaksMatch(name, pat, i);
      }
    }
    ReplaceAtEnd(x, pat, "20m.pix");
    assert x + "20m.pix" == OutputName(name, G20);
  }

  /** A match of a pattern without `_` cannot straddle the `_` after the
      name. */
  lemma UnderscoreBreaksMatch(name: string, pat: string, i: nat)
    requires '_' !in pat && i <= |name| < i + |pat|
    ensures !OccursAt(name + "_" + pat, pat, i)
  {
    var s := name + "_" + pat;
    var k := |name| - i;
    assert s[i..i + |pat|][k] == s[|name|] == '_';
    assert pat[k] in pat;
  }

  /** The pattern is absent from `c + s` only if it is absent from `s`. */
  lemma NotContainsCons(c: char, s: string, pat: string)
    requires |pat| > 0 && !Contains(s, pat) && c != pat[0]
    ensures !Contains([c] + s, pat)
  {
    assert ([c] + s)[1..] == s;
  }

  /** The merged copy ends in `_10m.pix` as well, so a later run of the
      merge step over the same folder picks it up as a 10m file. */
  lemma MergedCopyMatches(out: string, name: string)
    requires WinPath.PlainName(name)
    ensures WinPath.Basename(CopyOf(out, OutputOf(out, name, G10))) == OutputName("merged_" + name, G10)
    ensures EndsWith(WinPath.Basename(CopyOf(out, OutputOf(out, name, G10))), "_10m.pix")
  {
    CopyBasename(out, name, G10);
    OutputEnds10("merged_" + name);
  }

  lemma CopyBasename(out: string, name: string, g: Group)
    requires WinPath.PlainName(name)
    ensures WinPath.Basename(CopyOf(out, OutputOf(out, name, g))) == OutputName("merged_" + name, g)
  {
    assert WinPath.PlainName("merged_");
    PrefixedBasename(out, "merged_", name, g);
  }

  lemma OutputEnds10(name: string)
    ensures EndsWith(OutputName(name, G10), "_10m.pix")
  {
    assert OutputName(name, G10) == name + "_10m.pix";
    EndsWithConcat(name, "_10m.pix");
  }

  // ---------------------------------------------------------------------
  // The merge step's search
  // ---------------------------------------------------------------------

  /** `fnmatch.filter(files, "*_10m.pix")` on Windows, where the match
      ignores letter case. */
  predicate Is10m(file: string) {
    EndsWith(Lower(file), "_10m.pix")
  }

  /** The 10m files of a folder walk, given as (folder, file name) pairs in
      walk order, joined back into paths. */
  function Find10m(listing: seq<(string, string)>): (r: seq<string>)
    ensures |r| <= |listing|
    ensures forall f :: f in r <==> exists i :: 0 <= i < |listing| && Is10m(listing[i].1)
                                              && f == WinPath.Join(listing[i].0, listing[i].1)
  {
    Select(listing, (e: (string, string)) => Is10m(e.1), (e: (string, string)) => WinPath.Join(e.0, e.1))
  }

  /** The images under `f` of the elements of `xs` that pass `keep`, in
      order. */
  function Select<T, U(!new)>(xs: seq<T>, keep: T -> bool, f: T -> U): (r: seq<U>)
    ensures |r| <= |xs|
    ensures forall y :: y in r <==> exists i :: 0 <= i < |xs| && keep(xs[i]) && y == f(xs[i])
    decreases |xs|
  {
    if |xs| == 0 then []
    else
      var rest := Select(xs[1..], keep, f);
      assert forall i :: 1 <= i < |xs| ==> xs[i] == xs[1..][i - 1];
      (if keep(xs[0]) then [f(xs[0])] else []) + rest
  }
}
