/** Batch mosaicking (`Batch_Image_mosaicking.py`): the projection test
    that decides whether an input is reprojected first, the list of
    subfolders (one mosaic each), the exclusion filter, and the files each
    mosaic reads and writes. */
module Mosaic {
  import opened Wrappers
  import opened Text
  import opened WinPath

  /** The messages this script stops with. */
  const MfileUndefined: string := "name 'input_mode_1_mfile' is not defined"
  const SubfoldersUndefined: string := "name 'unique_subfolders_list' is not defined"

  /** Only the folder search works: the MFILE branch reads an undefined
      name, and any other mode leaves the subfolder list undefined. */
  function Validate(inputMode: int): (r: Result<()>)
    ensures r.Ok? <==> inputMode == 2
  {
    if inputMode == 1 then Abort(MfileUndefined)
    else if inputMode != 2 then Abort(SubfoldersUndefined)
    else Ok(())
  }

  // ---------------------------------------------------------------------
  // Projection test
  // ---------------------------------------------------------------------

  /** `s.replace(" ", "")`; the `.strip()` that follows is discarded. */
  function NoSpaces(s: string): (r: string)
    ensures ' ' !in r
  {
    ReplaceCharRemoves(s, ' ', "");
    ReplaceAll(s, " ", "")
  }

  /** Two projection strings match when they agree once every space is
      removed. */
  predicate SameProjection(image: string, target: string) {
    NoSpaces(image) == NoSpaces(target)
  }

  /** A space anywhere in a projection string makes no difference to the
      test. */
  lemma SpaceIgnored(x: string, y: string, target: string)
    ensures SameProjection(x + " " + y, target) <==> SameProjection(x + y, target)
  {
    ReplaceCharConcat(x, " ", " ", "");
    ReplaceCharConcat(x + " ", y, " ", "");
    ReplaceCharConcat(x, y, " ", "");
    assert ReplaceAll(" ", " ", "") == "";
  }

  /** A string without spaces matches exactly itself among space-free
      strings. */
  lemma SpaceFreeMatch(a: string, b: string)
    requires ' ' !in a && ' ' !in b
    ensures SameProjection(a, b) <==> a == b
  {
    ReplaceCharAbsent(a, ' ', "");
    ReplaceCharAbsent(b, ' ', "");
  }

  /** `conformity_reproject`: the input itself when its projection matches
      the target, otherwise `<stem>_reproj.pix` in the input's folder (the
      file the reprojection writes, whether or not it succeeds). */
  function ConformityReproject(input: string, imageProjection: string, target: string): (r: string)
    ensures SameProjection(imageProjection, target) ==> r == input
  {
    if SameProjection(imageProjection, target) then input
    else WinPath.Join(Dirname(input), Stem(input) + "_reproj.pix")
  }

  /** A reprojected file sits in the same folder as its input and is named
      after it. */
  lemma ReprojectedBeside(input: string, imageProjection: string, target: string)
    requires !SameProjection(imageProjection, target)
    requires ':' !in Stem(input)
    ensures var r := ConformityReproject(input, imageProjection, target);
            Dirname(r) == Dirname(input) && Basename(r) == Stem(input) + "_reproj.pix"
  {
    SuffixedBeside(input, Stem(input));
  }

  lemma SuffixedBeside(p: string, stem: string)
    requires PlainName(stem)
    ensures var r := WinPath.Join(Dirname(p), stem + "_reproj.pix");
            Dirname(r) == Dirname(p) && Basename(r) == stem + "_reproj.pix"
  {
    var name := stem + "_reproj.pix";
    assert PlainName("_reproj.pix") by {
      var t := "_reproj.pix";
      assert forall i :: 0 <= i < |t| ==> t[i] != '\\' && t[i] != '/' && t[i] != ':';
    }
    PlainConcat(stem, "_reproj.pix");
    DirnameOfJoin(p, name);
    BasenameOfJoin(Dirname(p), name);
  }

  // ---------------------------------------------------------------------
  // Subfolders
  // ---------------------------------------------------------------------

  /** The distinct roots in order of first appearance, defined the way the
      loop builds them: a root is appended unless already listed. */
  function Distinct(roots: seq<string>): (u: seq<string>)
    decreases |roots|
  {
    if |roots| == 0 then []
    else
      var u := Distinct(roots[..|roots| - 1]);
      if roots[|roots| - 1] in u then u else u + [roots[|roots| - 1]]
  }

  /** The position of the first occurrence of `x`. */
  function FirstIndex(s: seq<string>, x: string): (i: nat)
    requires x in s
    ensures i < |s| && s[i] == x
    ensures forall j :: 0 <= j < i ==> s[j] != x
    decreases |s|
  {
    if s[0] == x then 0 else FirstIndex(s[1..], x) + 1
  }

  predicate NoDuplicates(u: seq<string>) {
    forall i, j :: 0 <= i < j < |u| ==> u[i] != u[j]
  }

  /** A sorted-by-first-appearance listing: each entry first appears in
      `roots` before the next one does. */
  predicate InFirstOrder(u: seq<string>, roots: seq<string>)
    requires forall k :: 0 <= k < |u| ==> u[k] in roots
  {
    forall i, j :: 0 <= i < j < |u| ==> FirstIndex(roots, u[i]) < FirstIndex(roots, u[j])
  }

  /** The first occurrence of `x` in a prefix is its first occurrence in
      the whole list. */
  lemma FirstIndexPrefix(s: seq<string>, n: nat, x: string)
    requires n <= |s| && x in s[..n]
    ensures FirstIndex(s[..n], x) == FirstIndex(s, x)
  {
    var i := FirstIndex(s[..n], x);
    var k := FirstIndex(s, x);
    assert s[..n][i] == s[i];
  }

  /** The distinct roots hold every root once, in first-appearance order. */
  lemma DistinctSpec(roots: seq<string>)
    ensures var u := Distinct(roots);
            && NoDuplicates(u)
            && (forall x :: x in u <==> x in roots)
            && InFirstOrder(u, roots)
  {
    DistinctMembers(roots);
    DistinctOrder(roots);
  }

  lemma {:induction false} DistinctMembers(roots: seq<string>)
    ensures var u := Distinct(roots);
            NoDuplicates(u) && forall x :: x in u <==> x in roots
    decreases |roots|
  {
    if |roots| > 0 {
      var n := |roots| - 1;
      var pre := roots[..n];
      DistinctMembers(pre);
      assert roots == pre + [roots[n]];
    }
  }

  lemma {:induction false} DistinctOrder(roots: seq<string>)
    ensures var u := Distinct(roots);
            (forall k :: 0 <= k < |u| ==> u[k] in roots) && InFirstOrder(u, roots)
    decreases |roots|
  {
    DistinctMembers(roots);
    if |roots| > 0 {
      var n := |roots| - 1;
      var pre := roots[..n];
      DistinctMembers(pre);
      DistinctOrder(pre);
      assert roots == pre + [roots[n]];
      OrderExtends(roots, n, Distinct(pre));
    }
  }

  /** An ordered listing of the roots before position `n` stays ordered
      against the longer list, and so does the listing extended by the root
      at `n` when that root is new. */
  lemma OrderExtends(roots: seq<string>, n: nat, u: seq<string>)
    requires n < |roots|
    requires forall k :: 0 <= k < |u| ==> u[k] in roots[..n]
    requires InFirstOrder(u, roots[..n])
    ensures forall k :: 0 <= k < |u| ==> u[k] in roots
    ensures InFirstOrder(u, roots)
    ensures roots[n] !in roots[..n] ==> InFirstOrder(u + [roots[n]], roots)
  {
    var pre := roots[..n];
    forall y | y in pre
      ensures y in roots && FirstIndex(pre, y) == FirstIndex(roots, y)
    {
      FirstIndexPrefix(roots, n, y);
    }
    assert forall k :: 0 <= k < |u| ==> u[k] in pre;
    if roots[n] !in pre {
      var x := roots[n];
      var v := u + [x];
      assert FirstIndex(roots, x) == n;
      forall i, j | 0 <= i < j < |v|
        ensures FirstIndex(roots, v[i]) < FirstIndex(roots, v[j])
      {
        assert v[i] == u[i];
        if j < |u| {
          assert v[j] == u[j];
        } else {
          assert FirstIndex(pre, u[i]) < |pre|;
        }
      }
    }
  }

  /** The loop that builds `unique_subfolders_list`. */
  method UniqueSubfolders(roots: seq<string>) returns (u: seq<string>)
    ensures u == Distinct(roots)
    ensures NoDuplicates(u)
    ensures forall x :: x in u <==> x in roots
    ensures InFirstOrder(u, roots)
  {
    u := [];
    var i := 0;
    while i < |roots|
      invariant i <= |roots|
      invariant u == Distinct(roots[..i])
    {
      assert roots[..i + 1][..i] == roots[..i];
      if roots[i] !in u {
        u := u + [roots[i]];
      }
      i := i + 1;
    }
    assert roots[..|roots|] == roots;
    DistinctSpec(roots);
  }

  // ---------------------------------------------------------------------
  // Exclusion filter
  // ---------------------------------------------------------------------

  /** One pass of the filter: the paths that do not contain `word`, in
      order. */
  function Without(paths: seq<string>, word: string): (r: seq<string>)
    ensures |r| <= |paths|
    ensures forall p :: p in r <==> p in paths && !Contains(p, word)
    decreases |paths|
  {
    if |paths| == 0 then []
    else
      var rest := Without(paths[1..], word);
      assert forall p :: p in paths <==> p == paths[0] || p in paths[1..];
      if Contains(paths[0], word) then rest else [paths[0]] + rest
  }

  /** The exclusion step: one pass per word of the exclusion list (an empty
      list skips the step). */
  function Exclude(paths: seq<string>, words: seq<string>): (r: seq<string>)
    decreases |words|
  {
    if |words| == 0 then paths else Exclude(Without(paths, words[0]), words[1..])
  }

  predicate ContainsNone(p: string, words: seq<string>) {
    forall k :: 0 <= k < |words| ==> !Contains(p, words[k])
  }

  /** The same list described in one pass: the paths containing none of the
      words, in their original order. */
  function KeepClean(paths: seq<string>, words: seq<string>): (r: seq<string>)
    ensures forall p :: p in r ==> p in paths && ContainsNone(p, words)
    decreases |paths|
  {
    if |paths| == 0 then []
    else
      var rest := KeepClean(paths[1..], words);
      if ContainsNone(paths[0], words) then [paths[0]] + rest else rest
  }

  /** Filtering by one word, then by a clean-list of the others, is one
      clean-list over all of them. */
  lemma {:induction false} KeepCleanWithout(paths: seq<string>, w: string, words: seq<string>)
    ensures KeepClean(Without(paths, w), words) == KeepClean(paths, [w] + words)
    decreases |paths|
  {
    if |paths| > 0 {
      KeepCleanWithout(paths[1..], w, words);
      var p := paths[0];
      ContainsNoneCons(p, w, words);
    }
  }

  lemma ContainsNoneCons(p: string, w: string, words: seq<string>)
    ensures ContainsNone(p, [w] + words) <==> !Contains(p, w) && ContainsNone(p, words)
  {
    var ws := [w] + words;
    assert ws[0] == w;
    assert forall k :: 1 <= k < |ws| ==> ws[k] == words[k - 1];
    if !Contains(p, w) && ContainsNone(p, words) {
      forall k | 0 <= k < |ws|
        ensures !Contains(p, ws[k])
      {
        if k > 0 {
          assert ws[k] == words[k - 1];
        }
      }
    }
    if ContainsNone(p, ws) {
      forall k | 0 <= k < |words|
        ensures !Contains(p, words[k])
      {
        assert ws[k + 1] == words[k];
      }
    }
  }

  /** A clean-list over no words keeps everything. */
  lemma {:induction false} KeepCleanNothing(paths: seq<string>)
    ensures KeepClean(paths, []) == paths
    decreases |paths|
  {
    if |paths| > 0 {
      KeepCleanNothing(paths[1..]);
    }
  }

  /** The word-by-word filter keeps exactly the paths that contain none of
      the words, in their original order; an empty exclusion list leaves the
      paths unchanged. */
  lemma {:induction false} ExcludeKeepsClean(paths: seq<string>, words: seq<string>)
    ensures Exclude(paths, words) == KeepClean(paths, words)
    ensures |words| == 0 ==> Exclude(paths, words) == paths
    decreases |words|
  {
    if |words| == 0 {
      KeepCleanNothing(paths);
    } else {
      ExcludeKeepsClean(Without(paths, words[0]), words[1..]);
      KeepCleanWithout(paths, words[0], words[1..]);
      assert [words[0]] + words[1..] == words;
    }
  }

  // ---------------------------------------------------------------------
  // One mosaic
  // ---------------------------------------------------------------------

  /** The files of one mosaic: the MFILE of the subfolder with its lines,
      the output subfolder, the project file and the definition file. */
  datatype MosaicFiles = MosaicFiles(mfile: string, lines: seq<string>, outputFolder: string,
                                     project: string, definition: string)

  /** One subfolder: filter its files, reproject those whose projection
      differs from the target, and name what the mosaic steps write.
      `projectionOf` stands for reading a file's projection. */
  function MosaicOf(sub: string, files: seq<string>, words: seq<string>, target: string, out: string,
                    projectionOf: string -> string): (m: MosaicFiles)
    ensures |m.lines| == |KeepClean(files, words)|
    ensures forall i :: 0 <= i < |m.lines| ==>
              var f := KeepClean(files, words)[i];
              && ContainsNone(f, words)
              && (SameProjection(projectionOf(f), target) ==> m.lines[i] == f)
              && m.lines[i] == ConformityReproject(f, projectionOf(f), target)
  {
    ExcludeKeepsClean(files, words);
    var kept := Exclude(files, words);
    var lines := seq(|kept|, i requires 0 <= i < |kept| => ConformityReproject(kept[i], projectionOf(kept[i]), target));
    var base := Basename(sub);
    var folder := WinPath.Join(out, base);
    MosaicFiles(WinPath.Join(sub, "MFILE_file_to_mosaic.txt"), lines, folder,
                WinPath.Join(folder, base + "_project.mos"), WinPath.Join(folder, base + "_mosdef.xml"))
  }

  /** The text written to the subfolder's MFILE: one file per line. */
  function MfileText(m: MosaicFiles): string {
    Text.Join("\n", m.lines)
  }

  /** The output subfolder is named after the input subfolder, and the
      project and definition files are named after it too, inside it. */
  lemma MosaicNames(sub: string, files: seq<string>, words: seq<string>, target: string, out: string,
                    projectionOf: string -> string)
    requires ':' !in Basename(sub)
    ensures var m := MosaicOf(sub, files, words, target, out, projectionOf);
            var base := Basename(sub);
            && Basename(m.outputFolder) == base
            && Basename(m.project) == base + "_project.mos"
            && Basename(m.definition) == base + "_mosdef.xml"
            && Basename(m.mfile) == "MFILE_file_to_mosaic.txt"
  {
    var base := Basename(sub);
    var folder := WinPath.Join(out, base);
    LiteralsArePlain();
    PlainConcat(base, "_project.mos");
    PlainConcat(base, "_mosdef.xml");
    BasenameOfJoin(out, base);
    BasenameOfJoin(folder, base + "_project.mos");
    BasenameOfJoin(folder, base + "_mosdef.xml");
    BasenameOfJoin(sub, "MFILE_file_to_mosaic.txt");
  }

  /** For a subfolder written without a trailing separator, the MFILE lies
      in the subfolder, and the project and definition files lie in the
      output subfolder. */
  lemma MosaicFolders(sub: string, files: seq<string>, words: seq<string>, target: string, out: string,
                      projectionOf: string -> string)
    requires |sub| == 0 || !IsSep(sub[|sub| - 1])
    requires |Basename(sub)| > 0 && ':' !in Basename(sub)
    ensures var m := MosaicOf(sub, files, words, target, out, projectionOf);
            && Dirname(m.mfile) == sub
            && Dirname(m.project) == m.outputFolder
            && Dirname(m.definition) == m.outputFolder
  {
    var base := Basename(sub);
    var folder := WinPath.Join(out, base);
    LiteralsArePlain();
    PlainConcat(base, "_project.mos");
    PlainConcat(base, "_mosdef.xml");
    DirnameOfJoinFolder(sub, "MFILE_file_to_mosaic.txt");
    JoinEndsWithName(out, base);
    DirnameOfJoinFolder(folder, base + "_project.mos");
    DirnameOfJoinFolder(folder, base + "_mosdef.xml");
  }

  lemma LiteralsArePlain()
    ensures PlainName("_project.mos") && PlainName("_mosdef.xml") && PlainName("MFILE_file_to_mosaic.txt")
  {
    var a := "_project.mos";
    var b := "_mosdef.xml";
    var c := "MFILE_file_to_mosaic.txt";
    assert forall i :: 0 <= i < |a| ==> a[i] != '\\' && a[i] != '/' && a[i] != ':';
    assert forall i :: 0 <= i < |b| ==> b[i] != '\\' && b[i] != '/' && b[i] != ':';
    assert forall i :: 0 <= i < |c| ==> c[i] != '\\' && c[i] != '/' && c[i] != ':';
  }
}
