/** Batch conversion of SAR data to intensity, amplitude or decibels
    (`Batch_PSIQINTERP_with_split_channels.py`): the option checks, the
    output base name, and the output of every file, either one per listed
    channel or one for all channels. */
module PsiqInterp {
  import opened Wrappers
  import opened Text
  import opened WinPath
  import Flags
  import opened Messages

  /** The messages this script stops with. */
  const BadInterpretation: string := "the interpretation_type option is not valid"
  const IndexNotInteger: string := "list indices must be integers"
  const IndexOutOfRange: string := "list index out of range"

  // ---------------------------------------------------------------------
  // Options
  // ---------------------------------------------------------------------

  /** The long name of an interpretation type given in short or long form,
      in any letter case. */
  function Interpretation(value: string): (r: Option<string>)
    ensures r == Some("intensity") <==> Lower(value) in ["int", "intensity"]
    ensures r == Some("amplitude") <==> Lower(value) in ["amp", "amplitude"]
    ensures r == Some("decibel") <==> Lower(value) in ["db", "decibel"]
    ensures r.None? <==> Lower(value) !in ["int", "intensity", "amp", "amplitude", "db", "decibel"]
  {
    var v := Lower(value);
    if v in ["int", "intensity"] then Some("intensity")
    else if v in ["amp", "amplitude"] then Some("amplitude")
    else if v in ["db", "decibel"] then Some("decibel")
    else None
  }

  /** The letter case of the option does not matter. */
  lemma InterpretationIgnoresCase(value: string)
    ensures Interpretation(value) == Interpretation(Lower(value))
  {
    LowerIdempotent(value);
  }

  /** A Python value of the channel and description lists: the checks look
      at its type. */
  datatype Value = IntV(i: int) | StrV(s: string) | OtherV

  /** The options as written at the top of the script. */
  datatype Options = Options(inputMode: int, interpretation: string, split: string,
                             channels: seq<Value>, descriptions: seq<Value>, prefix: string)

  /** What splitting needs: as many descriptions as channels, every channel
      an integer and every description a string. */
  predicate SplitReady(o: Options) {
    && |o.channels| == |o.descriptions|
    && forall k :: 0 <= k < |o.channels| ==> o.channels[k].IntV? && o.descriptions[k].StrV?
  }

  /** The options once checked. */
  datatype Plan = Plan(kind: string, split: bool)

  /** The first position, among the pairs `zip` forms, whose channel is not
      an integer or whose description is not a string. */
  function FirstBadPair(channels: seq<Value>, descriptions: seq<Value>): (r: Option<nat>)
    ensures r.None? <==> forall k :: 0 <= k < |channels| && k < |descriptions| ==>
                           channels[k].IntV? && descriptions[k].StrV?
    ensures r.Some? ==> r.value < |channels| && r.value < |descriptions|
                        && !(channels[r.value].IntV? && descriptions[r.value].StrV?)
                        && forall k :: 0 <= k < r.value ==> channels[k].IntV? && descriptions[k].StrV?
    decreases |channels|
  {
    if |channels| == 0 || |descriptions| == 0 then None
    else if !(channels[0].IntV? && descriptions[0].StrV?) then Some(0)
    else
      match FirstBadPair(channels[1..], descriptions[1..])
      case None => None
      case Some(k) => Some(k + 1)
  }

  /** What is wrong with the split options, checked in the order the
      script checks them: the two list lengths, then each pair in turn. */
  function SplitProblem(o: Options): (r: Option<string>)
    ensures r.None? <==> SplitReady(o)
  {
    if |o.channels| != |o.descriptions| then
      Some("the number of input channels must be equal to the number of output channel descriptions")
    else
      match FirstBadPair(o.channels, o.descriptions)
      case None => None
      case Some(k) =>
        if !o.channels[k].IntV? then Some("All channels in input_channels must be integer")
        else Some("All output channels description must be strings")
  }

  /** The checks, in the order they run. `found` is the number of files
      listed or found. The check that the channel list equals 1 compares a
      list with a number and never fires, so it is not here. */
  function Validate(o: Options, found: nat): (r: Result<Plan>)
    ensures r.Ok? <==>
      && Interpretation(o.interpretation).Some?
      && (Flags.YesFlag(Flags.SplitYes, o.split) ==> SplitReady(o))
      && (o.inputMode == 1 || o.inputMode == 2)
      && found > 0
    ensures r.Ok? ==> Some(r.value.kind) == Interpretation(o.interpretation)
    ensures r.Ok? ==> (r.value.split <==> Flags.YesFlag(Flags.SplitYes, o.split))
  {
    match Interpretation(o.interpretation)
    case None => Abort(BadInterpretation)
    case Some(kind) =>
      var split := Flags.YesFlag(Flags.SplitYes, o.split);
      if split && SplitProblem(o).Some? then Abort(SplitProblem(o).value)
      else if o.inputMode != 1 && o.inputMode != 2 then
        Abort(BadInputMode)
      else if found == 0 then Abort(NoFilesFound)
      else Ok(Plan(kind, split))
  }

  // ---------------------------------------------------------------------
  // Output names
  // ---------------------------------------------------------------------

  /** `os.path.basename(prefix + path[:-4])`. */
  function OutputBase(prefix: string, path: string): (r: string)
    ensures NoSep(r)
  {
    Basename(prefix + DropLast(path, 4))
  }

  /** Past the first two characters a separator cannot belong to a drive,
      so the basename is what follows the last separator. */
  lemma BasenameAfterLastSep(q: string)
    requires LastSepEnd(q) >= 3
    ensures Basename(q) == q[LastSepEnd(q)..]
  {
    var j := LastSepEnd(q);
    if HasDrive(q) {
      var rest := q[2..];
      assert rest[j - 2..] == q[j..];
      assert rest[j - 3] == q[j - 1];
      LastSepEndUnique(rest, j - 2);
    }
  }

  /** The last separator of `q`, when its tail `y` has one, is the one in
      `y`. */
  lemma LastSepEndOfTail(q: string, k: nat, y: string)
    requires k <= |q| && q[k..] == y
    requires LastSepEnd(y) > 0
    ensures LastSepEnd(q) == k + LastSepEnd(y)
  {
    var j := LastSepEnd(y);
    assert q[k + j..] == y[j..];
    assert q[k + j - 1] == y[j - 1];
    LastSepEndUnique(q, k + j);
  }

  /** Two paths with folders and the same text after their last separator
      have the same basename. */
  lemma SameLastComponent(q: string, y: string)
    requires LastSepEnd(y) >= 3 && LastSepEnd(q) >= 3
    requires q[LastSepEnd(q)..] == y[LastSepEnd(y)..]
    ensures Basename(q) == Basename(y)
  {
    BasenameAfterLastSep(q);
    BasenameAfterLastSep(y);
  }

  /** When the input path has a folder, the prefix is glued onto that
      folder and lost: the base is the input's own file name without
      extension. */
  lemma PrefixLost(prefix: string, path: string)
    requires LastSepEnd(DropLast(path, 4)) >= 3
    ensures OutputBase(prefix, path) == Stem(path)
  {
    var y := DropLast(path, 4);
    var q := prefix + y;
    LastSepEndOfTail(q, |prefix|, y);
    assert q[LastSepEnd(q)..] == y[LastSepEnd(y)..];
    SameLastComponent(q, y);
  }

  /** With a bare file name the prefix is kept. */
  lemma PrefixKept(prefix: string, path: string)
    requires PlainName(prefix + DropLast(path, 4))
    ensures OutputBase(prefix, path) == prefix + DropLast(path, 4)
  {
    var q := prefix + DropLast(path, 4);
    assert !HasDrive(q);
    LastSepEndUnique(q, 0);
  }

  /** Python's `xs[i]` on a list of length `n`: a negative index counts
      from the end; anything else out of range raises. */
  function PyIndex(i: int, n: nat): (r: Option<nat>)
    ensures r.Some? <==> -(n as int) <= i < n
    ensures r.Some? ==> r.value < n && (r.value == i || r.value == n + i)
  {
    if 0 <= i < n then Some(i)
    else if -(n as int) <= i < 0 then Some(n + i)
    else None
  }

  /** The output of one call: a file converted as a whole, or one channel
      of it, named after its description. */
  datatype Output = Whole(base: string) | PerChannel(base: string, description: string)

  /** One call of the converter: the input, the channels it reads and the
      output it writes. */
  datatype Call = Call(input: string, channels: seq<Value>, output: Output)

  /** The name of the output file: `<base>_<type>.pix` for a whole file,
      `<base>_<type>_<description>.pix` for one channel. */
  function FileName(kind: string, o: Output): (r: string)
    ensures StartsWith(r, o.base + "_" + kind) && EndsWith(r, ".pix")
    ensures o.Whole? ==> |r| == |o.base| + 1 + |kind| + 4
    ensures o.PerChannel? ==>
              && |r| == |o.base| + 1 + |kind| + 1 + |o.description| + 4
              && r[|o.base| + 1 + |kind|] == '_'
              && r[|o.base| + |kind| + 2..|r| - 4] == o.description
  {
    match o
    case Whole(base) => base + "_" + kind + ".pix"
    case PerChannel(base, d) => base + "_" + kind + "_" + d + ".pix"
  }

  /** The channels of one file get distinct names exactly when their
      descriptions differ. */
  lemma ChannelNamesDistinct(kind: string, base: string, d1: string, d2: string)
    ensures FileName(kind, PerChannel(base, d1)) == FileName(kind, PerChannel(base, d2)) <==> d1 == d2
  {
    var h := base + "_" + kind + "_";
    var n1 := FileName(kind, PerChannel(base, d1));
    var n2 := FileName(kind, PerChannel(base, d2));
    assert n1 == h + d1 + ".pix";
    assert n2 == h + d2 + ".pix";
    if n1 == n2 {
      assert |d1| == |d2|;
      assert d1 == n1[|h|..|h| + |d1|];
      assert d2 == n2[|h|..|h| + |d2|];
    }
  }

  /** `os.path.join(output_folder, name)`: a plain name stays the file's
      basename. */
  function OutputPath(out: string, name: string): (r: string)
    ensures PlainName(name) ==> Basename(r) == name
  {
    var r := WinPath.Join(out, name);
    assert PlainName(name) ==> Basename(r) == name by {
      if PlainName(name) { BasenameOfJoin(out, name); }
    }
    r
  }

  /** The positions the listed channel values point at, `c - 1` for a
      value `c` (0 wraps to the last position); the first value that is not
      an integer or points outside the list stops the run. */
  function Positions(values: seq<Value>, n: nat): (r: Result<seq<nat>>)
    ensures r.Ok? <==> forall k :: 0 <= k < |values| ==> values[k].IntV? && PyIndex(values[k].i - 1, n).Some?
    ensures r.Ok? ==> |r.value| == |values|
    ensures r.Ok? ==> forall k :: 0 <= k < |values| ==> Some(r.value[k]) == PyIndex(values[k].i - 1, n)
    decreases |values|
  {
    if |values| == 0 then Ok([])
    else if !values[0].IntV? then Abort(IndexNotInteger)
    else
      match PyIndex(values[0].i - 1, n)
      case None => Abort(IndexOutOfRange)
      case Some(j) =>
        assert forall k :: 1 <= k < |values| ==> values[k] == values[1..][k - 1];
        match Positions(values[1..], n)
        case Abort(e) => Abort(e)
        case Ok(rest) =>
          assert forall k :: 1 <= k < |values| ==> ([j] + rest)[k] == rest[k - 1];
          Ok([j] + rest)
  }

  /** The split outputs of one file: for each listed channel value, the
      channel at the position it points at and an output named after the
      description at the same position. */
  function SplitCalls(input: string, channels: seq<Value>, descriptions: seq<Value>,
                      values: seq<Value>, base: string): (r: Result<seq<Call>>)
    requires |channels| == |descriptions|
    requires forall k :: 0 <= k < |descriptions| ==> descriptions[k].StrV?
    ensures r.Ok? <==> forall k :: 0 <= k < |values| ==>
                         values[k].IntV? && PyIndex(values[k].i - 1, |channels|).Some?
    ensures r.Ok? ==> |r.value| == |values|
    ensures r.Ok? ==> forall k :: 0 <= k < |values| ==>
              var j := PyIndex(values[k].i - 1, |channels|).value;
              r.value[k] == Call(input, [channels[j]], PerChannel(base, descriptions[j].s))
  {
    match Positions(values, |channels|)
    case Abort(e) => Abort(e)
    case Ok(js) =>
      Ok(seq(|js|, k requires 0 <= k < |js| => Call(input, [channels[js[k]]], PerChannel(base, descriptions[js[k]].s))))
  }

  /** With the usual channel list `1, 2, ..., n`, the `k`-th output reads
      channel `k` and is named after the `k`-th description. */
  lemma SplitInOrder(input: string, channels: seq<Value>, descriptions: seq<Value>, base: string)
    requires |channels| == |descriptions|
    requires forall k :: 0 <= k < |descriptions| ==> descriptions[k].StrV?
    requires forall k :: 0 <= k < |channels| ==> channels[k] == IntV(k + 1)
    ensures var r := SplitCalls(input, channels, descriptions, channels, base);
            r.Ok? && forall k :: 0 <= k < |channels| ==>
              r.value[k] == Call(input, [IntV(k + 1)], PerChannel(base, descriptions[k].s))
  {
    var n := |channels|;
    forall k | 0 <= k < n
      ensures PyIndex(channels[k].i - 1, n) == Some(k)
    {
    }
    var r := SplitCalls(input, channels, descriptions, channels, base);
    assert r.Ok?;
    forall k | 0 <= k < n
      ensures r.value[k] == Call(input, [IntV(k + 1)], PerChannel(base, descriptions[k].s))
    {
      assert channels[k] == IntV(k + 1);
    }
  }

  /** A channel value of 0 reads the last channel and its description. */
  lemma ZeroWraps(input: string, channels: seq<Value>, descriptions: seq<Value>, base: string)
    requires |channels| == |descriptions| && |channels| > 0
    requires forall k :: 0 <= k < |descriptions| ==> descriptions[k].StrV?
    ensures var n := |channels|;
            SplitCalls(input, channels, descriptions, [IntV(0)], base)
            == Ok([Call(input, [channels[n - 1]], PerChannel(base, descriptions[n - 1].s))])
  {
    var n := |channels|;
    var r := SplitCalls(input, channels, descriptions, [IntV(0)], base);
    assert PyIndex([IntV(0)][0].i - 1, n) == Some(n - 1);
    assert r.Ok? && |r.value| == 1;
    assert r.value == [r.value[0]];
  }

  /** Every listed channel value points at a channel, or there is no
      splitting. */
  predicate IndicesValid(o: Options, p: Plan) {
    p.split ==> forall k :: 0 <= k < |o.channels| ==>
                  o.channels[k].IntV? && PyIndex(o.channels[k].i - 1, |o.channels|).Some?
  }

  /** The calls for one file whose output base is `base`: one per listed
      channel when splitting, otherwise a single call over all channels. */
  function CallsFor(o: Options, p: Plan, input: string, base: string): (r: Result<seq<Call>>)
    requires p.split ==> SplitReady(o)
    ensures !p.split ==> r == Ok([Call(input, o.channels, Whole(base))])
    ensures r.Ok? <==> IndicesValid(o, p)
    ensures p.split ==> r.Ok? ==> |r.value| == |o.channels|
    ensures p.split ==> r.Ok? ==> forall k :: 0 <= k < |o.channels| ==>
              var j := PyIndex(o.channels[k].i - 1, |o.channels|).value;
              o.descriptions[j].StrV? && r.value[k] == Call(input, [o.channels[j]], PerChannel(base, o.descriptions[j].s))
  {
    if p.split then SplitCalls(input, o.channels, o.descriptions, o.channels, base)
    else Ok([Call(input, o.channels, Whole(base))])
  }

  /** The calls of the whole run, grouped by file, file `i` with output
      base `bases[i]`. An index error while splitting stops the run. */
  function AllCalls(o: Options, p: Plan, files: seq<string>, bases: seq<string>): (r: Result<seq<seq<Call>>>)
    requires p.split ==> SplitReady(o)
    requires |bases| == |files|
    ensures r.Ok? <==> |files| == 0 || IndicesValid(o, p)
    ensures r.Ok? ==> |r.value| == |files|
    ensures r.Ok? ==> forall i :: 0 <= i < |files| ==> CallsFor(o, p, files[i], bases[i]) == Ok(r.value[i])
    decreases |files|
  {
    if |files| == 0 then Ok([])
    else
      var first := CallsFor(o, p, files[0], bases[0]);
      var rest := AllCalls(o, p, files[1..], bases[1..]);
      if first.Abort? then Abort(first.reason)
      else
        match rest
        case Abort(e) => Abort(e)
        case Ok(more) => Ok([first.value] + more)
  }

  /** The output bases of the listed files. */
  function Bases(prefix: string, files: seq<string>): (r: seq<string>)
    ensures |r| == |files|
    ensures forall i :: 0 <= i < |files| ==> r[i] == OutputBase(prefix, files[i])
  {
    seq(|files|, i requires 0 <= i < |files| => OutputBase(prefix, files[i]))
  }

  /** The whole run: the checks, then the calls for every listed file,
      grouped by file. */
  function Run(o: Options, files: seq<string>): (r: Result<seq<seq<Call>>>)
    ensures r.Ok? <==> Validate(o, |files|).Ok? && IndicesValid(o, Validate(o, |files|).value)
    ensures r.Ok? ==> |r.value| == |files| && |files| > 0
  {
    match Validate(o, |files|)
    case Abort(e) => Abort(e)
    case Ok(p) => AllCalls(o, p, files, Bases(o.prefix, files))
  }

  /** Without splitting, file `i` is converted as a whole, into an output
      based on `basename(prefix + path[:-4])`. */
  lemma WholeFileRun(o: Options, files: seq<string>, i: nat)
    requires Validate(o, |files|).Ok? && !Flags.YesFlag(Flags.SplitYes, o.split) && i < |files|
    ensures Run(o, files).Ok?
    ensures Run(o, files).value[i] == [Call(files[i], o.channels, Whole(OutputBase(o.prefix, files[i])))]
  {
    var p := Validate(o, |files|).value;
    var bases := Bases(o.prefix, files);
    assert Run(o, files) == AllCalls(o, p, files, bases);
  }

  /** With splitting, call `k` of file `i` reads the channel the `k`-th
      listed value points at and is named after the description at the
      same position. */
  lemma SplitFileRun(o: Options, files: seq<string>, i: nat, k: nat)
    requires Run(o, files).Ok? && Flags.YesFlag(Flags.SplitYes, o.split)
    requires i < |files| && k < |o.channels|
    ensures var j := PyIndex(o.channels[k].i - 1, |o.channels|).value;
            |Run(o, files).value[i]| == |o.channels| && o.descriptions[j].StrV?
            && Run(o, files).value[i][k]
               == Call(files[i], [o.channels[j]], PerChannel(OutputBase(o.prefix, files[i]), o.descriptions[j].s))
  {
    var p := Validate(o, |files|).value;
    RunFile(o, files, i);
    SplitCallAt(o, p, files[i], OutputBase(o.prefix, files[i]), k);
  }

  /** The calls of file `i` in a run that goes through are those made for
      it alone, with its own output base. */
  lemma RunFile(o: Options, files: seq<string>, i: nat)
    requires Run(o, files).Ok? && i < |files|
    ensures var p := Validate(o, |files|).value;
            && (p.split <==> Flags.YesFlag(Flags.SplitYes, o.split))
            && (p.split ==> SplitReady(o))
            && CallsFor(o, p, files[i], OutputBase(o.prefix, files[i])) == Ok(Run(o, files).value[i])
  {
    var p := Validate(o, |files|).value;
    var bases := Bases(o.prefix, files);
    assert Run(o, files) == AllCalls(o, p, files, bases);
    assert bases[i] == OutputBase(o.prefix, files[i]);
  }

  /** Call `k` of a split file. */
  lemma SplitCallAt(o: Options, p: Plan, input: string, base: string, k: nat)
    requires p.split && SplitReady(o) && CallsFor(o, p, input, base).Ok? && k < |o.channels|
    ensures var j := PyIndex(o.channels[k].i - 1, |o.channels|).value;
            var calls := CallsFor(o, p, input, base).value;
            |calls| == |o.channels| && o.descriptions[j].StrV?
            && calls[k] == Call(input, [o.channels[j]], PerChannel(base, o.descriptions[j].s))
  {
  }
}
