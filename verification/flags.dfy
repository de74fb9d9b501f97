/** The yes/no options of the scripts. Most options are tested with
    `value.lower() in yes_list`; a few compare the raw value. Each script
    carries its own list. */
module Flags {
  import opened Text

  /** The common NoData option of the comparison script and the
      `remove_nodata` option of the site script. */
  const ThematicYes: seq<string> := ["yes", "y", "yse", "ys"]
  /** The band-group, merge and clip options of the Sentinel-2 script. */
  const Sentinel2Yes: seq<string> := ["yes", "y", "yy", "yse"]
  /** The MS, thermal, PAN and clip options of the Landsat script. */
  const LandsatYes: seq<string> := ["y", "yes", "yse", "yy", "yys"]
  /** The footprint option of the ortho script. */
  const OrthoYes: seq<string> := ["yes", "y", "yys", "yse", "yee", "yss", "ys"]
  /** The channel-split option of the PSIQINTERP script. */
  const SplitYes: seq<string> := ["y", "yes", "ys", "yse"]

  predicate IsLowerAscii(s: string) {
    forall i :: 0 <= i < |s| ==> !('A' <= s[i] <= 'Z')
  }

  predicate AllLower(words: seq<string>) {
    forall k :: 0 <= k < |words| ==> IsLowerAscii(words[k])
  }

  /** Two strings that differ at most in the case of ASCII letters. */
  predicate SameIgnoringCase(s: string, t: string) {
    |s| == |t| && forall i :: 0 <= i < |s| ==> LowerChar(s[i]) == LowerChar(t[i])
  }

  lemma {:induction false} LowerAt(s: string, i: nat)
    requires i < |s|
    ensures Lower(s)[i] == LowerChar(s[i])
    decreases i
  {
    if i > 0 {
      LowerAt(s[1..], i - 1);
    }
  }

  /** `Lower(s)` names a lower-case word exactly when `s` is that word up to
      letter case. */
  lemma LowerMatches(s: string, w: string)
    requires IsLowerAscii(w)
    ensures Lower(s) == w <==> SameIgnoringCase(s, w)
  {
    forall i | 0 <= i < |s|
      ensures Lower(s)[i] == LowerChar(s[i])
    {
      LowerAt(s, i);
    }
    if SameIgnoringCase(s, w) {
      assert forall i :: 0 <= i < |w| ==> LowerChar(w[i]) == w[i];
      assert Lower(s) == w;
    }
  }

  /** `value.lower() in yes`: with a list of lower-case words, the option is
      on exactly when the value is one of the words in any letter case. */
  function YesFlag(yes: seq<string>, value: string): (on: bool)
    ensures AllLower(yes) ==> (on <==> exists k :: 0 <= k < |yes| && SameIgnoringCase(value, yes[k]))
  {
    YesFlagMeaning(yes, value);
    Lower(value) in yes
  }

  lemma YesFlagMeaning(yes: seq<string>, value: string)
    ensures AllLower(yes) ==>
      (Lower(value) in yes <==> exists k :: 0 <= k < |yes| && SameIgnoringCase(value, yes[k]))
  {
    if AllLower(yes) {
      forall k | 0 <= k < |yes|
        ensures Lower(value) == yes[k] <==> SameIgnoringCase(value, yes[k])
      {
        LowerMatches(value, yes[k]);
      }
    }
  }

  /** `value in yes`, without lowering: only the listed spellings. Every
      value it accepts is accepted by the lowering test as well. */
  function ExactFlag(yes: seq<string>, value: string): (on: bool)
    ensures AllLower(yes) && on ==> YesFlag(yes, value)
  {
    ExactImpliesYes(yes, value);
    value in yes
  }

  lemma ExactImpliesYes(yes: seq<string>, value: string)
    ensures AllLower(yes) && value in yes ==> Lower(value) in yes
  {
    if AllLower(yes) && value in yes {
      var k :| 0 <= k < |yes| && yes[k] == value;
      LowerMatches(value, yes[k]);
    }
  }

  /** The common NoData option of the comparison script and the
      `remove_nodata` option of the site script: `yes`, `y`, `yse` or `ys`,
      in any letter case. */
  function ThematicOption(value: string): (on: bool)
    ensures on <==> exists k :: 0 <= k < |ThematicYes| && SameIgnoringCase(value, ThematicYes[k])
  {
    ListsAreLower();
    YesFlag(ThematicYes, value)
  }

  /** The lowering flags only see the lower-case form of the value. */
  lemma {:induction false} YesFlagIgnoresCase(yes: seq<string>, value: string)
    ensures YesFlag(yes, value) == YesFlag(yes, Lower(value))
  {
    LowerIdempotent(value);
  }

  /** Every list of the scripts is written in lower case, so the flags accept
      their words in any letter case. */
  lemma ListsAreLower()
    ensures AllLower(ThematicYes) && AllLower(Sentinel2Yes) && AllLower(LandsatYes)
    ensures AllLower(OrthoYes) && AllLower(SplitYes)
  {
  }

  /** The Sentinel-2 merge option is compared without lowering: `"Yes"`
      turns a band group on but not the merge. */
  lemma MergeFlagIsCaseSensitive()
    ensures YesFlag(Sentinel2Yes, "Yes")
    ensures !ExactFlag(Sentinel2Yes, "Yes")
  {
    assert Lower("Yes") == "yes";
  }

  /** The lists differ: `"yy"` is a yes for the Sentinel-2 and Landsat
      scripts but a no for the thematic and PSIQINTERP scripts. */
  lemma ListsDiffer()
    ensures YesFlag(Sentinel2Yes, "yy") && YesFlag(LandsatYes, "yy")
    ensures !YesFlag(ThematicYes, "yy") && !YesFlag(SplitYes, "yy")
  {
    assert Lower("yy") == "yy";
  }
}
