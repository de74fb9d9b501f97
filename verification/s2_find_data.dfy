/** Sentinel-2 search and import (`2_FindData_FIMPORT_Sentinel2.py`): the
    band groups are switched on only by the exact text `yes`, every scene is
    imported once per group, all scenes of one group before the next group,
    and the list of ingested files keeps the imports that did not fail. The
    trimmed acquisition dates the script computes are `DateFormats.TrimmedDate`;
    no output name uses them. */
module S2FindData {
  import opened S2BandMerge
  import opened Blocks

  /** The band groups whose option is exactly `yes`, in the order 10, 20, 60. */
  function Enabled(bands10: string, bands20: string, bands60: string): (gs: seq<Group>)
    ensures G10 in gs <==> bands10 == "yes"
    ensures G20 in gs <==> bands20 == "yes"
    ensures G60 in gs <==> bands60 == "yes"
    ensures forall i, j :: 0 <= i < j < |gs| ==> Rank(gs[i]) < Rank(gs[j])
  {
    S2BandMerge.Enabled(Plan(bands10 == "yes", bands20 == "yes", bands60 == "yes", false, false))
  }

  /** Unlike the band-merge script, this one compares the raw text: `Yes`,
      `y` and `YES` select no group at all, so nothing is imported. */
  lemma OnlyExactYes()
    ensures Enabled("Yes", "y", "YES") == []
    ensures Flags.YesFlag(Flags.Sentinel2Yes, "Yes") && Flags.YesFlag(Flags.Sentinel2Yes, "y")
    ensures Flags.YesFlag(Flags.Sentinel2Yes, "YES")
  {
    assert Text.Lower("Yes") == "yes";
    assert Text.Lower("y") == "y";
    assert Text.Lower("YES") == "yes";
  }

  /** The base name of one scene's outputs: `prefix_<SourceID>`, so that
      group `g` is written to `prefix_<SourceID>_NNm.pix` in the output
      folder. */
  function NameFor(prefix: string, sourceId: string): string {
    prefix + "_" + sourceId
  }

  /** The imports of one group: one per scene, in scene order; `zip` stops
      at the shorter of the path and SourceID lists. */
  function GroupImports(paths: seq<string>, ids: seq<string>, prefix: string, g: Group)
    : (r: seq<Import>)
    ensures |r| == if |paths| <= |ids| then |paths| else |ids|
    ensures forall i :: 0 <= i < |r| ==> r[i] == Import(paths[i], NameFor(prefix, ids[i]), g)
  {
    var n := if |paths| <= |ids| then |paths| else |ids|;
    seq(n, i requires 0 <= i < n => Import(paths[i], NameFor(prefix, ids[i]), g))
  }

  /** All imports: every scene of the first selected group, then every
      scene of the next one. */
  function Imports(paths: seq<string>, ids: seq<string>, prefix: string, gs: seq<Group>)
    : (r: seq<Import>)
    ensures |r| == |gs| * (if |paths| <= |ids| then |paths| else |ids|)
  {
    var blocks := GroupBlocks(paths, ids, prefix, gs);
    FlattenLength(blocks, if |paths| <= |ids| then |paths| else |ids|);
    Flatten(blocks)
  }

  function GroupBlocks(paths: seq<string>, ids: seq<string>, prefix: string, gs: seq<Group>)
    : (r: seq<seq<Import>>)
    ensures |r| == |gs|
    ensures forall k :: 0 <= k < |gs| ==> r[k] == GroupImports(paths, ids, prefix, gs[k])
                                          && |r[k]| == if |paths| <= |ids| then |paths| else |ids|
  {
    seq(|gs|, k requires 0 <= k < |gs| => GroupImports(paths, ids, prefix, gs[k]))
  }

  /** Entry `k * n + i` is scene `i` in group `gs[k]`, where `n` is the
      number of scenes: the list is group-major. */
  lemma ImportsAt(paths: seq<string>, ids: seq<string>, prefix: string, gs: seq<Group>, k: nat, i: nat)
    requires k < |gs| && i < |paths| && i < |ids|
    ensures var n := if |paths| <= |ids| then |paths| else |ids|;
            k * n + i < |Imports(paths, ids, prefix, gs)|
            && Imports(paths, ids, prefix, gs)[k * n + i] == Import(paths[i], NameFor(prefix, ids[i]), gs[k])
  {
    FlattenAt(GroupBlocks(paths, ids, prefix, gs), if |paths| <= |ids| then |paths| else |ids|, k, i);
  }

  /** The imports that produced a file, in import order: those the importer
      did not reject. The ingested list holds their outputs. */
  function Ingested(imports: seq<Import>, failed: set<Import>): (r: seq<Import>)
    ensures |r| <= |imports|
    ensures forall x :: x in r <==> x in imports && x !in failed
    ensures failed == {} ==> r == imports
    decreases |imports|
  {
    if |imports| == 0 then []
    else
      var rest := Ingested(imports[1..], failed);
      assert forall x :: x in imports <==> x == imports[0] || x in imports[1..];
      (if imports[0] in failed then [] else [imports[0]]) + rest
  }

  /** Filtering a list made of two parts filters each part in place: the
      kept imports stay in import order, each as often as it was made. */
  lemma {:induction false} IngestedConcat(a: seq<Import>, b: seq<Import>, failed: set<Import>)
    ensures Ingested(a + b, failed) == Ingested(a, failed) + Ingested(b, failed)
    decreases |a|
  {
    if |a| > 0 {
      var head := if a[0] in failed then [] else [a[0]];
      assert (a + b)[0] == a[0] && (a + b)[1..] == a[1..] + b;
      assert Ingested(a + b, failed) == head + Ingested(a[1..] + b, failed);
      IngestedConcat(a[1..], b, failed);
      ImportsAssoc(head, Ingested(a[1..], failed), Ingested(b, failed));
    } else {
      assert a + b == b;
    }
  }

  lemma ImportsAssoc(a: seq<Import>, b: seq<Import>, c: seq<Import>)
    ensures a + (b + c) == (a + b) + c
  {
  }

  /** A single import is kept exactly when it did not fail. */
  lemma IngestedOne(x: Import, failed: set<Import>)
    ensures Ingested([x], failed) == if x in failed then [] else [x]
  {
    assert [x][1..] == [];
  }

  /** The ingested list is group-major too: the surviving imports of the
      first selected group, then those of the next one. */
  lemma {:induction false} IngestedByGroup(paths: seq<string>, ids: seq<string>, prefix: string,
                                           gs: seq<Group>, failed: set<Import>)
    ensures Ingested(Imports(paths, ids, prefix, gs), failed)
         == Flatten(seq(|gs|, k requires 0 <= k < |gs| => Ingested(GroupImports(paths, ids, prefix, gs[k]), failed)))
    decreases |gs|
  {
    var blocks := GroupBlocks(paths, ids, prefix, gs);
    IngestedFlatten(blocks, failed);
    var kept := seq(|blocks|, k requires 0 <= k < |blocks| => Ingested(blocks[k], failed));
    assert kept == seq(|gs|, k requires 0 <= k < |gs| => Ingested(GroupImports(paths, ids, prefix, gs[k]), failed));
  }

  lemma {:induction false} IngestedFlatten(blocks: seq<seq<Import>>, failed: set<Import>)
    ensures Ingested(Flatten(blocks), failed)
         == Flatten(seq(|blocks|, k requires 0 <= k < |blocks| => Ingested(blocks[k], failed)))
    decreases |blocks|
  {
    var kept := seq(|blocks|, k requires 0 <= k < |blocks| => Ingested(blocks[k], failed));
    if |blocks| > 0 {
      IngestedFlatten(blocks[1..], failed);
      IngestedConcat(blocks[0], Flatten(blocks[1..]), failed);
      assert kept[1..] == seq(|blocks[1..]|, k requires 0 <= k < |blocks[1..]| => Ingested(blocks[1..][k], failed));
    }
  }
}
