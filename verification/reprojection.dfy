/** Batch reprojection (`Batch_file_reprojection_v1.py`): every listed file
    whose projection differs from the target, spaces aside, is reprojected
    into `<prefix><name without extension>.pix` in the output folder; the
    others are skipped. The projection test is the one the mosaicking
    script uses, `Mosaic.SameProjection`. */
module Reprojection {
  import opened Wrappers
  import opened Text
  import opened WinPath
  import Mosaic
  import opened Messages

  /** The run stops unless the input mode is 1 (MFILE) or 2 (search folder)
      and at least one file was found. */
  function Validate(inputMode: int, found: nat): (r: Result<()>)
    ensures r.Ok? <==> (inputMode == 1 || inputMode == 2) && found > 0
  {
    if inputMode != 1 && inputMode != 2 then
      Abort(BadInputMode)
    else if found == 0 then Abort(NoFilesFound)
    else Ok(())
  }

  /** What happens to one file, with the counter value it is reported
      under. A reprojected file is written to `os.path.join(output_folder,
      name)`. */
  datatype Step = Reproject(input: string, name: string, count: nat) | Skip(input: string, count: nat)

  /** The output name: `prefix + basename(path[:-4]) + ".pix"`. */
  function OutputName(prefix: string, input: string): (r: string)
    ensures EndsWith(r, ".pix") && StartsWith(r, prefix)
    ensures |r| == |prefix| + |Stem(input)| + 4 && r[|prefix|..|r| - 4] == Stem(input)
  {
    prefix + Stem(input) + ".pix"
  }

  /** One file: skipped when its projection already matches the target,
      otherwise reprojected into the output folder. */
  function StepFor(input: string, projection: string, target: string, prefix: string, count: nat)
    : (r: Step)
    ensures r.input == input && r.count == count
    ensures r.Skip? <==> Mosaic.SameProjection(projection, target)
  {
    if Mosaic.SameProjection(projection, target) then Skip(input, count)
    else Reproject(input, OutputName(prefix, input), count)
  }

  /** A reprojected file lands in the output folder under its output name,
      whenever neither the prefix nor the input's name holds a colon and
      the prefix holds no separator. */
  lemma OutputInFolder(input: string, projection: string, target: string, prefix: string, out: string, count: nat)
    requires PlainName(prefix) && ':' !in Stem(input)
    ensures var r := StepFor(input, projection, target, prefix, count);
            r.Reproject? ==> Basename(WinPath.Join(out, r.name)) == OutputName(prefix, input)
  {
    var name := OutputName(prefix, input);
    PlainStemName(prefix, Stem(input));
    BasenameOfJoin(out, name);
  }

  /** A plain prefix and a stem (which has no separator, and no colon when
      it came from a path with a folder) give a plain name. */
  lemma PlainStemName(prefix: string, stem: string)
    requires PlainName(prefix) && NoSep(stem)
    ensures NoSep(prefix + stem + ".pix")
    ensures ':' !in stem ==> PlainName(prefix + stem + ".pix")
  {
    var s := prefix + stem + ".pix";
    assert forall i :: 0 <= i < |s| ==> s[i] == (if i < |prefix| then prefix[i]
                                                  else if i < |prefix| + |stem| then stem[i - |prefix|]
                                                  else ".pix"[i - |prefix| - |stem|]);
  }

  /** The run over the listed files, `projectionOf` standing for the map
      units read from each file. File `i` is reported under counter
      `i + 1`: the counter advances once per file, whether it is
      reprojected or skipped. */
  function Run(inputMode: int, files: seq<string>, projectionOf: string -> string, target: string,
               prefix: string): (r: Result<seq<Step>>)
    ensures r.Ok? <==> Validate(inputMode, |files|).Ok?
    ensures r.Ok? ==> |r.value| == |files|
    ensures r.Ok? ==> forall i :: 0 <= i < |files| ==>
              r.value[i] == StepFor(files[i], projectionOf(files[i]), target, prefix, i + 1)
  {
    if Validate(inputMode, |files|).Abort? then Abort(Validate(inputMode, |files|).reason)
    else Ok(Steps(files, (f: string, c: nat) => StepFor(f, projectionOf(f), target, prefix, c)))
  }

  /** One step per file, file `i` under counter `i + 1`. */
  function Steps(files: seq<string>, step: (string, nat) -> Step): (r: seq<Step>)
    ensures |r| == |files|
    ensures forall i :: 0 <= i < |files| ==> r[i] == step(files[i], i + 1)
  {
    seq(|files|, i requires 0 <= i < |files| => step(files[i], i + 1))
  }

  /** The names written: those of the files whose projection differs from
      the target, in list order. */
  function Reprojected(steps: seq<Step>): (r: seq<string>)
    ensures |r| <= |steps|
    ensures forall f :: f in r <==> exists i :: 0 <= i < |steps| && steps[i].Reproject? && steps[i].name == f
    decreases |steps|
  {
    if |steps| == 0 then []
    else
      var rest := Reprojected(steps[1..]);
      assert forall f :: f in rest <==> exists i :: 1 <= i < |steps| && steps[i].Reproject?
                                                   && steps[i].name == f by {
        forall f | f in rest
          ensures exists i :: 1 <= i < |steps| && steps[i].Reproject? && steps[i].name == f
        {
          var i :| 0 <= i < |steps[1..]| && steps[1..][i].Reproject? && steps[1..][i].name == f;
          assert steps[i + 1] == steps[1..][i];
        }
        forall f | exists i :: 1 <= i < |steps| && steps[i].Reproject? && steps[i].name == f
          ensures f in rest
        {
          var i :| 1 <= i < |steps| && steps[i].Reproject? && steps[i].name == f;
          assert steps[1..][i - 1] == steps[i];
        }
      }
      (if steps[0].Reproject? then [steps[0].name] else []) + rest
  }

  /** Every file already in the target projection is skipped, so when all
      of them are, the run writes nothing. */
  lemma {:induction false} AllMatchingWritesNothing(steps: seq<Step>)
    requires forall i :: 0 <= i < |steps| ==> steps[i].Skip?
    ensures Reprojected(steps) == []
    decreases |steps|
  {
    if |steps| > 0 {
      assert forall i :: 0 <= i < |steps[1..]| ==> steps[1..][i] == steps[i + 1];
      AllMatchingWritesNothing(steps[1..]);
    }
  }

  /** The run writes exactly the output names of the files not already in
      the target projection. */
  lemma RunWrites(inputMode: int, files: seq<string>, projectionOf: string -> string, target: string,
                  prefix: string, name: string)
    requires Run(inputMode, files, projectionOf, target, prefix).Ok?
    ensures var steps := Run(inputMode, files, projectionOf, target, prefix).value;
            name in Reprojected(steps) <==>
              exists i :: 0 <= i < |files| && !Mosaic.SameProjection(projectionOf(files[i]), target)
                          && OutputName(prefix, files[i]) == name
  {
    var steps := Run(inputMode, files, projectionOf, target, prefix).value;
    if name in Reprojected(steps) {
      var i :| 0 <= i < |steps| && steps[i].Reproject? && steps[i].name == name;
      assert !Mosaic.SameProjection(projectionOf(files[i]), target);
    }
    if exists i :: 0 <= i < |files| && !Mosaic.SameProjection(projectionOf(files[i]), target)
                   && OutputName(prefix, files[i]) == name {
      var i :| 0 <= i < |files| && !Mosaic.SameProjection(projectionOf(files[i]), target)
               && OutputName(prefix, files[i]) == name;
      assert steps[i].Reproject? && steps[i].name == name;
    }
  }
}
