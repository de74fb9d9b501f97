# Remote-sensing batch utilities: a Dafny model

This project models the logic of ten batch scripts from a remote-sensing
toolbox. Each script drives a vendor image-processing engine over a folder
of scenes. The engine calls, file reads and metadata lookups are not
modelled. What is modelled is what the scripts decide themselves:

- which options are accepted and when the run stops;
- which files are picked, and in what order;
- how output names are built from the metadata, and how a name that is
  already taken is replaced;
- which engine calls are made, with which inputs and outputs;
- for the two thematic scripts, the counting that fills the reports.

One module models each script:

| module | script |
|---|---|
| `ClassificationCompare` | `Classification_comparison_v2_with_NoData.py`: cross-tabulation of two classified layers, with NoData removal and the `;`-separated report |
| `SiteCount` | `Site_ID_count_class.py`: for each site ID of layer 1, the values of layer 2 and their counts |
| `SarIngest` | `Batch_SARINGEST_for_RS2_RCM_S1_v2.py`: RADARSAT-2 / RCM / Sentinel-1 ingestion, five naming formats, renaming of taken names |
| `S2BandMerge` | `Batch_FIMPORT_Sentinel2_with_Band_Merge_v2.py`: Sentinel-2 import by band group, clipping, 20 m to 10 m merge |
| `S2FindData` | `2_FindData_FIMPORT_Sentinel2.py`: Sentinel-2 import by band group, without merge |
| `Landsat` | `Batch_FIMPORT_Landsat_with_clip.py`: Landsat MS / thermal / PAN import and clipping |
| `Ortho` | `Batch_ORTHO_with_footprint_v2.0.py`: orthorectification with an output window and a footprint per output |
| `Mosaic` | `Batch_Image_mosaicking.py`: one mosaic per subfolder, reprojecting the inputs that are not in the target projection |
| `PsiqInterp` | `Batch_PSIQINTERP_with_split_channels.py`: SAR intensity / amplitude / decibel conversion, whole file or one file per channel |
| `Reprojection` | `Batch_file_reprojection_v1.py`: reprojection of the files not already in the target projection |

The shared modules are:

- `Wrappers`: `Result` (an `Abort` carries the message the script stops with) and `Option`.
- `Text`: Python's string operations (`lower`, `replace`, `join`, `split`, slicing, `str` of integers).
- `WinPath`: the Windows path functions the scripts call (`os.path.join`, `basename`, `dirname`).
- `Flags`: the yes/no option lists of each script.
- `DateFormats`: the ways the scripts turn an acquisition time stamp into a date.
- `Tabulate`: `np.unique`, `np.delete` with `np.where`, and sums, over `seq<int>`.
- `Blocks`: flattening a list of equal-length blocks.
- `Messages`: the abort messages shared by several scripts.

A run that the script ends with `sys.exit()` is an `Abort`. So is a run
that stops on a Python error, such as a name that was never bound, an index
out of range, or `min` of an empty list.

## Model

| member | source | states |
|---|---|---|
| ClassificationCompare.NoDataCount | Classification_comparison_v2_with_NoData.py:160-165 | the NoData count of a layer is the number of its pixels holding the NoData value, and it is zero exactly when the value does not occur |
| ClassificationCompare.CommonMask | Classification_comparison_v2_with_NoData.py:274-282 | with the common mask on, layer 1 loses exactly its NoData pixels, and layer 2 loses the pixels at the same positions, so the layers stay the same length; with it off, both layers are unchanged |
| ClassificationCompare.CheckTotals | Classification_comparison_v2_with_NoData.py:313-318 | the equal-total check passes exactly when both layers hold the same number of pixels |
| ClassificationCompare.CheckNeverFires | Classification_comparison_v2_with_NoData.py:313-318 | because the mask drops the same positions from both layers, the equal-total check can never stop the run |
| ClassificationCompare.IndexOf | Classification_comparison_v2_with_NoData.py:384-385 | `list.index` returns the first position that holds the value |
| ClassificationCompare.DenseRow | Classification_comparison_v2_with_NoData.py:379-389 | a matrix row has one entry per layer-2 class: the class's frequency in the row's pixels, or 0 when the class is absent from them |
| ClassificationCompare.DenseRowCounts | Classification_comparison_v2_with_NoData.py:379-389 | each dense entry equals the number of row pixels holding that column's class |
| ClassificationCompare.Row | Classification_comparison_v2_with_NoData.py:346-356 | a row has one count per distinct layer-2 class |
| ClassificationCompare.CrossTab | Classification_comparison_v2_with_NoData.py:346-389 | the rows are the distinct layer-1 classes, the columns the distinct layer-2 classes, and every row has one cell per column |
| ClassificationCompare.CellCounts | Classification_comparison_v2_with_NoData.py:355-389 | cell (i, j) counts the positions where layer 1 holds row class i and layer 2 holds column class j |
| ClassificationCompare.RowSum | Classification_comparison_v2_with_NoData.py:399-403 | a row adds up to the pixel count of its layer-1 class, which is at least 1, so the percentage division is never by zero |
| ClassificationCompare.GrandTotal | Classification_comparison_v2_with_NoData.py:346-389 | over the whole matrix, the cells count every tabulated pixel exactly once |
| ClassificationCompare.Compare | Classification_comparison_v2_with_NoData.py:274-389 | the comparison always completes; the rows are the layer-1 classes in ascending order, without the NoData value when the common mask is on; the columns are `np.unique` of layer 2 after the mask; cell (i, j) counts the positions of the original layers holding row class i in layer 1 and column class j in layer 2 |
| ClassificationCompare.MaskedCells | Classification_comparison_v2_with_NoData.py:274-282 | removing layer 1's NoData positions from both layers changes no cell: every row class differs from the NoData value, so its pair counts are those of the unmasked layers |
| Tabulate.DropPairsCount | Classification_comparison_v2_with_NoData.py:278-279 | dropping the pairs whose layer-1 value is the NoData value leaves the count of every other pair unchanged |
| ClassificationCompare.HeaderLines | Classification_comparison_v2_with_NoData.py:337-343 | the report has two header lines, and the first is the fixed `layer2` banner |
| ClassificationCompare.HeaderFields | Classification_comparison_v2_with_NoData.py:339-341 | splitting the second header line on `;` gives `...`, `cl`, the column classes, then `.`, `cl` and the column classes again |
| ClassificationCompare.RowLineJoin | Classification_comparison_v2_with_NoData.py:394-406 | a matrix line is its fields joined with `;` |
| ClassificationCompare.RowLineFields | Classification_comparison_v2_with_NoData.py:394-406 | splitting a matrix line on `;` gives back its fields (the row class, the counts, the row class again, the percentages), provided no percentage text holds a `;` |
| Tabulate.Unique | Classification_comparison_v2_with_NoData.py:287-288 | `np.unique` gives the values of the layer in strictly ascending order, each once |
| Tabulate.Frequencies | Classification_comparison_v2_with_NoData.py:287-288 | the returned counts give, for each unique value, its number of occurrences, which is at least 1 |
| Tabulate.SumFrequencies | Classification_comparison_v2_with_NoData.py:313-318 | the frequencies of a layer add up to the layer's length |
| Tabulate.DropWhere | Site_ID_count_class.py:162-164 | deleting the positions where the mask holds a value removes exactly as many pixels as the mask has occurrences of it |
| Tabulate.DropWhereSelf | Classification_comparison_v2_with_NoData.py:278 | a layer masked by itself keeps every other value with its multiplicity and loses the masked one |
| Tabulate.DropWhereAligned | Classification_comparison_v2_with_NoData.py:278-279 | masking two layers by layer 1 keeps the surviving pixel pairs together, in order |
| Tabulate.KeepWhere | Classification_comparison_v2_with_NoData.py:355 | keeping the positions where layer 1 holds a class keeps as many pixels as that class has |
| Tabulate.KeepWherePairs | Classification_comparison_v2_with_NoData.py:355 | among the kept layer-2 pixels, a value occurs as often as the pair (class, value) occurs across the two layers |
| Flags.ThematicOption | Classification_comparison_v2_with_NoData.py:69-77 | the common-NoData option is on exactly when the value is `yes`, `y`, `yse` or `ys` in any letter case |
| Flags.YesFlag | Batch_FIMPORT_Sentinel2_with_Band_Merge_v2.py:106-120 | a lowered option is on exactly when the value matches a word of the script's list, ignoring case |
| Flags.YesFlagIgnoresCase | Batch_FIMPORT_Sentinel2_with_Band_Merge_v2.py:106-120 | a lowered option gives the same answer for a value and for its lower-case form |
| Flags.ExactFlag | Batch_FIMPORT_Sentinel2_with_Band_Merge_v2.py:126 | an option compared without lowering accepts only the listed spellings, and so accepts a subset of what the lowered test accepts |
| Flags.MergeFlagIsCaseSensitive | Batch_FIMPORT_Sentinel2_with_Band_Merge_v2.py:126 | `Yes` turns the band groups on but does not turn the merge on |
| Flags.ListsDiffer | Site_ID_count_class.py:67 | the scripts' lists differ: `yy` is yes for the Sentinel-2 and Landsat scripts but not for the thematic and PSIQINTERP scripts |
| SiteCount.SiteOf | Site_ID_count_class.py:204-205 | the record of a site pairs each of its layer-2 values with one count |
| SiteCount.SiteContents | Site_ID_count_class.py:204-209 | a site's values are ascending; they are exactly the layer-2 values seen with that site; each count is the number of such pixel pairs; the counts add up to the site's pixel count |
| SiteCount.PairCounts | Site_ID_count_class.py:204 | the pixels kept for a site count each layer-2 value as often as that (site, value) pair occurs |
| SiteCount.SiteRecords | Site_ID_count_class.py:198-216 | there is one record per distinct site, in ascending site order |
| SiteCount.FilteredSites | Site_ID_count_class.py:183-198 | after NoData removal, every site that occurs in layer 1 and is not NoData gets exactly one record, and the NoData value gets none |
| SiteCount.SiteReport | Site_ID_count_class.py:148-216 | the report is produced only when NoData removal is on (otherwise the masked layers are never bound); it then holds one record per remaining site, in ascending order, and each record lists, ascending, exactly the layer-2 classes seen at that site's pixels in the original layers, each with the number of those pixels, the counts adding up to the site's pixel count |
| SiteCount.FilteredTallies | Site_ID_count_class.py:183-205 | NoData removal leaves the classes and counts of every other site as they are on the original layers |
| SiteCount.SiteLines | Site_ID_count_class.py:196-216 | the output has one line per site record, in order |
| SiteCount.SiteLineShape | Site_ID_count_class.py:207-215 | a site line is the site, the number of values, then the values and the counts separated by `"; "`: the space after each comma survives the replacements |
| SiteCount.CommaToSemicolon | Site_ID_count_class.py:212 | replacing `,` by `;` in a comma-separated list of integers gives the same list separated by `"; "` |
| SiteCount.SiteTotals | Site_ID_count_class.py:183-205 | over all sites, the counts add up to the number of pixels left after NoData removal |
| SarIngest.Validate | Batch_SARINGEST_for_RS2_RCM_S1_v2.py:116-208 | the run goes on exactly when the naming format is 1 to 5, the calibration, subset and date-format options are known, any named AOI clip file and DEM exist for the AOI variant, the input mode is 1 or 2, and files were found; a bad format stops with the `NameError` of the misspelt `Output_filename_format` |
| SarIngest.IngestAlgoOnlyWarns | Batch_SARINGEST_for_RS2_RCM_S1_v2.py:131-148 | an unknown ingestion algorithm stops nothing: it validates like the plain `saringest` |
| SarIngest.PlatformAbbrev | Batch_SARINGEST_for_RS2_RCM_S1_v2.py:256-263 | RADARSAT-2 becomes RS2 and SENTINEL-1 becomes S1; any other platform name is kept |
| SarIngest.OrbitAbbrev | Batch_SARINGEST_for_RS2_RCM_S1_v2.py:267-274 | Descending becomes DESC and Ascending becomes ASC; anything else is kept |
| SarIngest.AbbrevIdempotent | Batch_SARINGEST_for_RS2_RCM_S1_v2.py:256-274 | abbreviating an abbreviation changes nothing |
| SarIngest.PolarizationList | Batch_SARINGEST_for_RS2_RCM_S1_v2.py:280-284 | a `", "`-separated polarisation list becomes the same list separated by `-` |
| SarIngest.DateOut | Batch_SARINGEST_for_RS2_RCM_S1_v2.py:290-307 | the date used in names exists exactly for the `compact` and `unique` options, in any letter case; `compact` gives the compact date and `unique` the unique date |
| SarIngest.CompactDateOut | Batch_SARINGEST_for_RS2_RCM_S1_v2.py:295-305 | the date chosen by `compact` is the first eight characters of the date chosen by `unique` |
| SarIngest.OutputName | Batch_SARINGEST_for_RS2_RCM_S1_v2.py:309-337 | a name exists exactly for formats 1 to 5, and it always ends in `.pix`; format 1 is the prefix, the SourceID and `.pix` |
| SarIngest.Format3Order | Batch_SARINGEST_for_RS2_RCM_S1_v2.py:320-323 | format 3 writes the beam mode before the date, because the loop variables are bound in a different order from the zipped lists |
| SarIngest.FormatsExtend | Batch_SARINGEST_for_RS2_RCM_S1_v2.py:315-333 | format 4 is format 2 with the beam mode, orbit and product type appended; format 5 is format 4 with the `-`-joined polarisations between the beam mode and the orbit |
| SarIngest.Renamed | Batch_SARINGEST_for_RS2_RCM_S1_v2.py:355-357 | a taken name is replaced by the name without its last four characters, then `_`, then the scene counter and nothing more: the text after the last `_` is the counter, and the extension is lost |
| SarIngest.RenamedInverse | Batch_SARINGEST_for_RS2_RCM_S1_v2.py:355-357 | two renames are equal only when their counters and the stems of their names are equal |
| SarIngest.RenamedNotPix | Batch_SARINGEST_for_RS2_RCM_S1_v2.py:355-357 | a renamed output never ends in `.pix`, so it never equals a name that was kept |
| SarIngest.Target | Batch_SARINGEST_for_RS2_RCM_S1_v2.py:353-362 | a free name is kept and a taken name is renamed |
| SarIngest.Taken | Batch_SARINGEST_for_RS2_RCM_S1_v2.py:353 | the paths checked for a scene hold the existing paths and, when outputs are written, every earlier output |
| SarIngest.TargetsTaken | Batch_SARINGEST_for_RS2_RCM_S1_v2.py:344-362 | scene k keeps its name exactly when that name is neither an existing path nor an output written before it, and is renamed under counter k + 1 otherwise |
| SarIngest.TargetsShape | Batch_SARINGEST_for_RS2_RCM_S1_v2.py:344-362 | every output is its own name, when that name did not exist before the run, or its rename under its own counter |
| SarIngest.TargetsDistinct | Batch_SARINGEST_for_RS2_RCM_S1_v2.py:344-395 | when outputs are written, no two scenes get the same output |
| SarIngest.NamesOf | Batch_SARINGEST_for_RS2_RCM_S1_v2.py:290-337 | names exist for a valid format and date option, one per scene, each ending in `.pix`; name i is the output name of scene i under scene i's date |
| SarIngest.Run | Batch_SARINGEST_for_RS2_RCM_S1_v2.py:344-395 | a validated run gives one output per scene; output i is scene i's name, kept when free of existing paths and earlier outputs and renamed under counter i + 1 otherwise; the outputs are pairwise distinct when the algorithm writes them |
| S2BandMerge.Parse | Batch_FIMPORT_Sentinel2_with_Band_Merge_v2.py:106-149 | the band-group and clip options are lowered before the lookup; the merge option is not |
| S2BandMerge.Validate | Batch_FIMPORT_Sentinel2_with_Band_Merge_v2.py:98-147 | the run stops when nothing was found, when no band group is on, when the merge lacks its 10 m or 20 m group, or when the clip layer is missing |
| S2BandMerge.MergeSpelling | Batch_FIMPORT_Sentinel2_with_Band_Merge_v2.py:126-136 | with the merge option spelled `Yes`, the merge is off, so its check that the 20 m group is on never fires |
| S2BandMerge.PlatformAbbrev | Batch_FIMPORT_Sentinel2_with_Band_Merge_v2.py:178-183 | Sentinel-2 becomes S2; other platform names are kept |
| S2BandMerge.LevelAbbrev | Batch_FIMPORT_Sentinel2_with_Band_Merge_v2.py:185-192 | Level-1C becomes L1C and Level-2A becomes L2A; other levels are kept |
| S2BandMerge.AbbrevIdempotent | Batch_FIMPORT_Sentinel2_with_Band_Merge_v2.py:178-192 | abbreviating an abbreviation changes nothing |
| S2BandMerge.BaseName | Batch_FIMPORT_Sentinel2_with_Band_Merge_v2.py:211-218 | a base name exists only for formats 1 and 2; format 1 is the prefix and the SourceID |
| S2BandMerge.Format2Fields | Batch_FIMPORT_Sentinel2_with_Band_Merge_v2.py:197-218 | for a well-formed time stamp, format 2 is the prefix and the platform, then `_`, the eight date digits, `_`, the time digits, `_` and the level |
| S2BandMerge.BaseNames | Batch_FIMPORT_Sentinel2_with_Band_Merge_v2.py:208-218 | one base name per scene for formats 1 and 2, none for any other format |
| S2BandMerge.Enabled | Batch_FIMPORT_Sentinel2_with_Band_Merge_v2.py:225-242 | the selected groups are exactly the enabled ones, in the order 10 m, 20 m, 60 m |
| S2BandMerge.SceneImports | Batch_FIMPORT_Sentinel2_with_Band_Merge_v2.py:225-242 | a scene gets one import per selected group |
| S2BandMerge.Expand | Batch_FIMPORT_Sentinel2_with_Band_Merge_v2.py:225-242 | the import list has one entry per scene and selected group |
| S2BandMerge.ExpandAt | Batch_FIMPORT_Sentinel2_with_Band_Merge_v2.py:225-242 | entry `i * groups + k` is scene `i` in group `k`: the list is scene-major |
| S2BandMerge.Imports | Batch_FIMPORT_Sentinel2_with_Band_Merge_v2.py:221-242 | with a working format there are scenes × groups imports; with any other format there are none |
| S2BandMerge.ImportsOfScene | Batch_FIMPORT_Sentinel2_with_Band_Merge_v2.py:221-242 | the import of scene `i` in group `k` reads that scene's manifest and writes its base name with the group's suffix |
| S2BandMerge.OutputBasename | Batch_FIMPORT_Sentinel2_with_Band_Merge_v2.py:225-242 | an output lies in the output folder under the base name plus `_10m`, `_20m` or `_60m` and `.pix` |
| S2BandMerge.ClipKeepsEnding | Batch_FIMPORT_Sentinel2_with_Band_Merge_v2.py:305-308 | a clipped output is named `s` plus the original output name, so it keeps its group ending |
| S2BandMerge.MergePairsScene | Batch_FIMPORT_Sentinel2_with_Band_Merge_v2.py:371-383 | the 20 m partner of a scene's 10 m output is the same scene's 20 m output |
| S2BandMerge.MergePairsClipped | Batch_FIMPORT_Sentinel2_with_Band_Merge_v2.py:371-383 | the pairing also holds between the clipped outputs |
| S2BandMerge.MergeResampled | Batch_FIMPORT_Sentinel2_with_Band_Merge_v2.py:388-389 | the resampled 20 m file is written next to the outputs as `<base>_10m_resamp10m.pix` |
| S2BandMerge.Partner | Batch_FIMPORT_Sentinel2_with_Band_Merge_v2.py:377-378 | replacing `10m.pix` by `20m.pix` turns a 10 m output name into the 20 m one, provided the base name does not itself contain `10m.pix` |
| S2BandMerge.MergedCopyMatches | Batch_FIMPORT_Sentinel2_with_Band_Merge_v2.py:371-373 | the merged copy is `merged_` plus the 10 m output name, so it still ends in `_10m.pix` |
| S2BandMerge.Find10m | Batch_FIMPORT_Sentinel2_with_Band_Merge_v2.py:356-358 | the merge list holds exactly the listed files whose name ends in `_10m.pix`, in any letter case |
| S2FindData.Enabled | 2_FindData_FIMPORT_Sentinel2.py:133-181 | a band group is selected exactly when its option is the exact text `yes`, in the order 10 m, 20 m, 60 m |
| S2FindData.OnlyExactYes | 2_FindData_FIMPORT_Sentinel2.py:133 | `Yes`, `y` and `YES` select nothing here, although the band-merge script accepts all three |
| S2FindData.GroupImports | 2_FindData_FIMPORT_Sentinel2.py:138-143 | a group imports every scene once, in scene order, as far as both the path and the SourceID lists reach |
| S2FindData.Imports | 2_FindData_FIMPORT_Sentinel2.py:133-199 | there are groups × scenes imports |
| S2FindData.ImportsAt | 2_FindData_FIMPORT_Sentinel2.py:133-199 | entry `k * scenes + i` is scene `i` in group `k`: the list is group-major |
| S2FindData.Ingested | 2_FindData_FIMPORT_Sentinel2.py:149-155 | the ingested list holds exactly the imports that did not fail, and all of them when none failed |
| S2FindData.IngestedConcat | 2_FindData_FIMPORT_Sentinel2.py:149-155 | the ingested list of two runs of imports is the ingested list of the first followed by that of the second |
| S2FindData.IngestedOne | 2_FindData_FIMPORT_Sentinel2.py:149-155 | a single import is listed once when it did not fail and not at all when it failed; with IngestedConcat, the list keeps the surviving imports in order |
| S2FindData.IngestedByGroup | 2_FindData_FIMPORT_Sentinel2.py:130-203 | the ingested list is group-major: the surviving imports of the first selected group, then those of the next |
| DateFormats.TrimmedDateOfStamp | 2_FindData_FIMPORT_Sentinel2.py:114-122 | for a well-formed ISO time stamp, the trimmed date is the eight date digits |
| DateFormats.ReplacedDateOfStamp | Batch_FIMPORT_Landsat_with_clip.py:216-219 | for a well-formed ISO time stamp, removing `-` and `:` and keeping eight characters gives the eight date digits |
| DateFormats.Translate | Batch_SARINGEST_for_RS2_RCM_S1_v2.py:293-296 | the translation never lengthens the text, and leaves no `-`, `:` or `T` |
| DateFormats.TranslateCounts | Batch_SARINGEST_for_RS2_RCM_S1_v2.py:293-296 | every `T` becomes a `_`, `-`, `:`, `.` and `Z` disappear, and every other character is kept as often as it occurs |
| DateFormats.TranslateCountOf | Batch_SARINGEST_for_RS2_RCM_S1_v2.py:293-296 | the count of any one character after translation, from the counts before it |
| DateFormats.TranslateConcat | Batch_SARINGEST_for_RS2_RCM_S1_v2.py:293-296 | the translation works character by character, so it distributes over concatenation |
| DateFormats.UniqueOfStamp | Batch_SARINGEST_for_RS2_RCM_S1_v2.py:290-303 | the unique date of a well-formed time stamp is the date digits, `_`, then the time digits |
| DateFormats.CompactOfStamp | Batch_SARINGEST_for_RS2_RCM_S1_v2.py:290-303 | the compact date of a well-formed time stamp is its eight date digits |
| DateFormats.DatesAgree | Batch_SARINGEST_for_RS2_RCM_S1_v2.py:290-303 | on a well-formed time stamp, the three scripts' date computations give the same eight digits |
| Landsat.SwitchesOf | Batch_FIMPORT_Landsat_with_clip.py:113-158 | each of the five switches is on exactly when its lowered value is in the script's list |
| Landsat.Validate | Batch_FIMPORT_Landsat_with_clip.py:77-243 | the run goes on exactly when the input mode is 1 or 2, files were found, the format is 1, 3 or 4, exactly one of MS and MS+thermal is on, the clip layer exists when clipping, and every path has a first character; the plan's import type and suffix follow the chosen product |
| Landsat.ExactlyOneMsProduct | Batch_FIMPORT_Landsat_with_clip.py:113-132 | a run that goes on has exactly one MS product selected: both stop the run, and so does neither |
| Landsat.UrlPath | Batch_FIMPORT_Landsat_with_clip.py:164-171 | a non-empty path becomes a URL without backslashes; an empty path stops the run |
| Landsat.UrlOfDrivePath | Batch_FIMPORT_Landsat_with_clip.py:166-169 | `D:\a\b` becomes `file:/D%3A/a//b` |
| Landsat.DoubledSeparatorsRoundTrip | Batch_FIMPORT_Landsat_with_clip.py:169 | doubling the separators loses nothing: a path without `/` is recovered by undoing the replacement |
| Landsat.BaseName | Batch_FIMPORT_Landsat_with_clip.py:225-243 | names exist for formats 1, 3 and 4; format 1 is the prefix and the product ID |
| Landsat.NamesStartWithDate | Batch_FIMPORT_Landsat_with_clip.py:216-240 | formats 3 and 4 put the eight date digits right after the prefix |
| Landsat.PanImports | Batch_FIMPORT_Landsat_with_clip.py:283-296 | there are at most as many PAN imports as scenes |
| Landsat.PanImportsMembers | Batch_FIMPORT_Landsat_with_clip.py:283-296 | a PAN import is made exactly for the Landsat-8 and Landsat-9 scenes |
| Landsat.ImportAll | Batch_FIMPORT_Landsat_with_clip.py:257-299 | every scene gets one MS import; PAN imports are made only when PAN is on |
| Landsat.ClipInputs | Batch_FIMPORT_Landsat_with_clip.py:310 | the clip list is the MS outputs followed by the PAN outputs |
| Landsat.ClipOfMs | Batch_FIMPORT_Landsat_with_clip.py:328-331 | a clipped MS output is named `s` plus the MS output name |
| Landsat.Run | Batch_FIMPORT_Landsat_with_clip.py:77-299 | a validated run imports every scene once: MS import i reads scene i's `file:/` path and writes scene i's name with the plan's suffix; the PAN list holds one import per Landsat-8/9 scene, in scene order, when PAN is on and is empty otherwise, each ending in `_PAN.pix` |
| Landsat.PanEnds | Batch_FIMPORT_Landsat_with_clip.py:288 | every PAN output ends in `_PAN.pix` |
| Ortho.Validate | Batch_ORTHO_with_footprint_v2.0.py:115-158 | the run goes on exactly when the input mode is 1 or 2, files were found, and the naming format is 1 to 5 |
| Ortho.OutputName | Batch_ORTHO_with_footprint_v2.0.py:220-243 | a name exists for formats 1 to 5; format 1 keeps the input's file name, format 2 is the prefix, the SourceID and `.pix`, and the others start with the prefix and end in `.pix` |
| Ortho.NamesCarryDate | Batch_ORTHO_with_footprint_v2.0.py:208-243 | for a well-formed time stamp, format 3 is the prefix and the eight date digits, format 4 puts the acquisition type and `_` before them, and format 5 puts the sensor model and `_` before them and `_` and the orbit direction after them |
| Ortho.Names | Batch_ORTHO_with_footprint_v2.0.py:217-243 | one name per scene for a valid format, none otherwise |
| Ortho.Xs | Batch_ORTHO_with_footprint_v2.0.py:268-273 | the x list holds both x extents of every AOI shape |
| Ortho.Ys | Batch_ORTHO_with_footprint_v2.0.py:268-273 | the y list holds both y extents of every AOI shape |
| Ortho.Min | Batch_ORTHO_with_footprint_v2.0.py:277-280 | `min` returns a member of the list that is no larger than any member |
| Ortho.Max | Batch_ORTHO_with_footprint_v2.0.py:277-280 | `max` returns a member of the list that is no smaller than any member |
| Ortho.BoundingBox | Batch_ORTHO_with_footprint_v2.0.py:265-280 | a box exists exactly when the AOI has a shape, and it covers every shape |
| Ortho.CollectedInside | Batch_ORTHO_with_footprint_v2.0.py:268-280 | a box that covers every shape contains every collected x and y |
| Ortho.BoxIsSmallest | Batch_ORTHO_with_footprint_v2.0.py:277-280 | the computed box lies inside every box that covers the shapes |
| Ortho.WindowFor | Batch_ORTHO_with_footprint_v2.0.py:302-327 | option 1 uses the AOI box in the AOI projection, option 2 the user's corners, option 3 a 10 m default; there is no window for any other option |
| Ortho.FootprintOfPix | Batch_ORTHO_with_footprint_v2.0.py:394-395 | the footprint of `x.pix` is `x_footprint.pix` in the same folder |
| Ortho.Taken | Batch_ORTHO_with_footprint_v2.0.py:339 | the paths checked for a file hold the existing paths and the output and footprint of every earlier file |
| Ortho.TargetsTaken | Batch_ORTHO_with_footprint_v2.0.py:336-340 | each file writes its `o`-prefixed output exactly when that path is neither existing nor an earlier output or footprint, and its renamed output otherwise, each with its footprint |
| Ortho.TargetsShape | Batch_ORTHO_with_footprint_v2.0.py:336-340 | each file writes its `o`-prefixed output or its renamed output, each with its footprint, and the first file takes its first choice exactly when that path did not exist |
| Ortho.ExistingOnlyWhenRenamed | Batch_ORTHO_with_footprint_v2.0.py:336-340 | an output lands on an existing path only through a rename |
| Ortho.RepeatsAreRenamed | Batch_ORTHO_with_footprint_v2.0.py:336-340 | two files share an output only when the later one was renamed |
| Ortho.RenameClash | Batch_ORTHO_with_footprint_v2.0.py:339-340 | the rename is not itself checked, so a second file whose rename is the first file's output writes over it |
| Ortho.RenameCanOverwrite | Batch_ORTHO_with_footprint_v2.0.py:339-340 | concretely: `x_2.pix` then `x.pix`, with `ox.pix` already present, both write `ox_2.pix` |
| Ortho.Outputs | Batch_ORTHO_with_footprint_v2.0.py:294-403 | there is one output and footprint per file |
| Ortho.OutputsShape | Batch_ORTHO_with_footprint_v2.0.py:336-395 | each file's output is its first or its renamed choice under its own counter |
| Ortho.Products | Batch_ORTHO_with_footprint_v2.0.py:295-403 | there is one product per input, paired with the names as `zip` pairs them |
| Ortho.ProductsShape | Batch_ORTHO_with_footprint_v2.0.py:295-403 | every product is the first or the renamed choice of its name, with the matching footprint |
| Ortho.Prepare | Batch_ORTHO_with_footprint_v2.0.py:115-327 | the run goes on exactly when validation passes, the AOI has a shape when option 1 needs it, and the extent option is 1 to 3; for options 2 and 3 the whole window (projection, corners, resolution) is the one the option gives, for option 1 it is built from the bounding box of the AOI, and name i is the output name of scene i |
| Ortho.DataListReadsBack | Batch_ORTHO_with_footprint_v2.0.py:405-407 | reading the data list back line by line gives the outputs in order |
| Mosaic.Validate | Batch_Image_mosaicking.py:125-148 | only input mode 2 reaches the mosaics; with any other mode the subfolder list is never bound |
| Mosaic.NoSpaces | Batch_Image_mosaicking.py:64-65 | the cleaned projection holds no space |
| Mosaic.SpaceIgnored | Batch_Image_mosaicking.py:73-75 | a space in a projection never changes the projection test |
| Mosaic.SpaceFreeMatch | Batch_Image_mosaicking.py:73-75 | projections without spaces match exactly when they are equal |
| Mosaic.ConformityReproject | Batch_Image_mosaicking.py:66-120 | a file already in the target projection is used as it is |
| Mosaic.ReprojectedBeside | Batch_Image_mosaicking.py:88-90 | a reprojected file is written beside its input as `<stem>_reproj.pix` |
| Mosaic.DistinctSpec | Batch_Image_mosaicking.py:143-146 | the subfolder list holds every root once, in order of first appearance |
| Mosaic.DistinctMembers | Batch_Image_mosaicking.py:143-146 | the subfolder list has no duplicates and holds exactly the roots |
| Mosaic.DistinctOrder | Batch_Image_mosaicking.py:143-146 | the subfolders appear in the order of their first root |
| Mosaic.UniqueSubfolders | Batch_Image_mosaicking.py:143-146 | the loop builds the distinct roots in first-appearance order, without duplicates |
| Mosaic.Without | Batch_Image_mosaicking.py:181 | one exclusion step keeps exactly the paths not containing the word |
| Mosaic.KeepClean | Batch_Image_mosaicking.py:179-181 | the kept paths contain none of the exclusion words |
| Mosaic.KeepCleanWithout | Batch_Image_mosaicking.py:179-181 | excluding one word and then the rest is excluding all the words |
| Mosaic.ExcludeKeepsClean | Batch_Image_mosaicking.py:179-181 | the script's word-by-word exclusion keeps exactly the paths containing none of the words |
| Mosaic.KeepCleanNothing | Batch_Image_mosaicking.py:179 | an empty exclusion list keeps every path |
| Mosaic.MosaicOf | Batch_Image_mosaicking.py:163-250 | a subfolder's MFILE has one line per kept file; each kept file contains no excluded word, and line i is kept file i as it is when it is in the target projection and its reprojected copy otherwise |
| Mosaic.MosaicNames | Batch_Image_mosaicking.py:218-250 | the output subfolder, project file and definition file are named after the input subfolder, and the MFILE is named `MFILE_file_to_mosaic.txt` |
| Mosaic.MosaicFolders | Batch_Image_mosaicking.py:191-250 | for a subfolder written without a trailing separator, the MFILE lies in the subfolder, and the project and definition files lie in the output subfolder |
| WinPath.DirnameOfJoinFolder | Batch_Image_mosaicking.py:224-225 | a plain name joined onto a folder without a trailing separator has that folder as its `dirname` |
| PsiqInterp.Interpretation | Batch_PSIQINTERP_with_split_channels.py:58-67 | `int`/`intensity`, `amp`/`amplitude` and `db`/`decibel`, in any case, select the three conversions; anything else stops the run |
| PsiqInterp.InterpretationIgnoresCase | Batch_PSIQINTERP_with_split_channels.py:58-63 | the conversion depends only on the lower-case form of the option |
| PsiqInterp.FirstBadPair | Batch_PSIQINTERP_with_split_channels.py:81-87 | there is no bad pair exactly when every zipped channel is an integer and every description a string |
| PsiqInterp.SplitProblem | Batch_PSIQINTERP_with_split_channels.py:75-87 | splitting is allowed exactly when the two lists have the same length and hold integers and strings |
| PsiqInterp.Validate | Batch_PSIQINTERP_with_split_channels.py:58-117 | the run goes on exactly when the conversion is known, splitting (if on) is allowed, the input mode is 1 or 2, and files were found; the plan carries the conversion and the split switch |
| PsiqInterp.OutputBase | Batch_PSIQINTERP_with_split_channels.py:134 | the output base is the last path component of prefix + path-without-extension, so it holds no separator |
| PsiqInterp.PrefixLost | Batch_PSIQINTERP_with_split_channels.py:134 | when the path has a folder, the prefix is lost and the base is the file's stem |
| PsiqInterp.PrefixKept | Batch_PSIQINTERP_with_split_channels.py:134 | when prefix and path form a plain name, the prefix is kept |
| PsiqInterp.Bases | Batch_PSIQINTERP_with_split_channels.py:134 | one output base per file |
| PsiqInterp.PyIndex | Batch_PSIQINTERP_with_split_channels.py:144 | a Python index is valid from `-n` to `n - 1`, and a negative one counts from the end |
| PsiqInterp.FileName | Batch_PSIQINTERP_with_split_channels.py:147-162 | an output name starts with the base, `_` and the conversion and ends in `.pix`; for a whole file nothing else is in between, and for one channel exactly `_` and the description are |
| PsiqInterp.ChannelNamesDistinct | Batch_PSIQINTERP_with_split_channels.py:147 | two channel outputs of one file share a name exactly when they share a description |
| PsiqInterp.OutputPath | Batch_PSIQINTERP_with_split_channels.py:148 | an output with a plain name lies in the output folder under that name |
| PsiqInterp.Positions | Batch_PSIQINTERP_with_split_channels.py:141-144 | every channel number minus 1 is a valid Python index into the list, or the run stops |
| PsiqInterp.SplitCalls | Batch_PSIQINTERP_with_split_channels.py:139-155 | one call per channel value, each reading the indexed channel and naming its output after the indexed description |
| PsiqInterp.SplitInOrder | Batch_PSIQINTERP_with_split_channels.py:141-147 | when the channels are 1..n, call k reads channel k+1 and is named after description k |
| PsiqInterp.ZeroWraps | Batch_PSIQINTERP_with_split_channels.py:144-147 | a channel number 0 reads the last channel and takes the last description |
| PsiqInterp.CallsFor | Batch_PSIQINTERP_with_split_channels.py:139-163 | without splitting, a file gets one call on all channels; with splitting, one call per channel, or the run stops on a bad index |
| PsiqInterp.AllCalls | Batch_PSIQINTERP_with_split_channels.py:131-172 | every file gets the calls of its own base, in file order |
| PsiqInterp.Run | Batch_PSIQINTERP_with_split_channels.py:58-172 | the run completes exactly when validation passes and every channel index is valid, and it then has calls for every file |
| PsiqInterp.WholeFileRun | Batch_PSIQINTERP_with_split_channels.py:157-168 | without splitting, a run that passes validation always completes, and file i is converted once, as a whole, into its base |
| PsiqInterp.SplitFileRun | Batch_PSIQINTERP_with_split_channels.py:139-155 | with splitting, channel k of file i reads the indexed channel and is named after the indexed description |
| Reprojection.Validate | Batch_file_reprojection_v1.py:57-79 | the run goes on exactly when the input mode is 1 or 2 and files were found |
| Reprojection.OutputName | Batch_file_reprojection_v1.py:107-109 | an output name is the prefix, then the input's file name without its four-character extension, then `.pix` |
| Reprojection.StepFor | Batch_file_reprojection_v1.py:92-97 | a file is skipped exactly when its projection already matches the target |
| Reprojection.OutputInFolder | Batch_file_reprojection_v1.py:107-109 | whenever a file is reprojected, it lands in the output folder under its output name |
| Reprojection.PlainStemName | Batch_file_reprojection_v1.py:107-109 | the prefix and a file's stem form a plain file name |
| Reprojection.Run | Batch_file_reprojection_v1.py:87-137 | a validated run has one step per file, and file i is reported under counter i + 1 |
| Reprojection.Steps | Batch_file_reprojection_v1.py:137 | the counter advances once per file, whether the file is reprojected or skipped |
| Reprojection.Reprojected | Batch_file_reprojection_v1.py:97-135 | the written names are exactly those of the reprojection steps |
| Reprojection.AllMatchingWritesNothing | Batch_file_reprojection_v1.py:134-135 | when every file is already in the target projection, nothing is written |
| Reprojection.RunWrites | Batch_file_reprojection_v1.py:97-135 | a name is written exactly when some file not in the target projection has that output name |
| WinPath.BasenameOfJoin | Batch_FIMPORT_Sentinel2_with_Band_Merge_v2.py:305-308 | joining a plain name onto a folder and taking the base name gives the name back |
| WinPath.DirnameOfJoin | Batch_Image_mosaicking.py:88-90 | a plain name joined onto a file's folder lies in that same folder |
| WinPath.StemOfJoin | Batch_ORTHO_with_footprint_v2.0.py:394 | dropping the 4-character extension of a joined name gives the name back |

## Left out

- The vendor engine calls (import, ingest, ortho, clip, reproject, merge, mosaic steps, pyramids, footprints) are not modelled. A call is a record of its inputs and output. Where a script looks at an outcome, the outcome is a parameter: the set of failed imports, or the existing files.
- File-system access is not modelled. This covers `os.walk` with `fnmatch`, reading an MFILE, `os.path.exists`, and reading raster and vector data or metadata. The found files, the existing paths, the metadata records and the pixel values are inputs.
- The projection of a raster, read through the engine, is the `projectionOf` parameter. The number formatting of the AOI corners in the ortho script is the `render` parameter.
- Floating point is left out. The rounded percentages of the comparison and NoData reports are not computed. The matrix-line serialiser takes the percentage texts as given.
- Timing and progress messages (`time.strftime`, elapsed time) are not modelled.
- The EASI model generation of the comparison script (`Classification_comparison_v2_with_NoData.py:177-215`) is not modelled. It writes a vendor script that the run then executes.
- The subset option of the comparison and site scripts is left out. It clips the raster with the vendor engine before reading it.
- The second analysis of the site script (`Site_ID_count_class.py:238-433`) is not modelled: it sits inside a string literal and never runs.
- The scatter-plot script and the thin wrappers (desaturation, renaming, generic FindData) are not part of this model.
- Mosaic.Validate: input mode 1 names its MFILE `input_mode1_mfile` but opens `input_mode_1_mfile`, so it stops at once with a `NameError` and reads nothing; the model aborts with that message. Any mode other than 1 and 2 stops when the never-bound subfolder list is first used.
- Mosaic.MosaicFolders: proved only for a subfolder written without a trailing separator. `os.walk` yields such folders, but a folder ending in a separator would get an empty base name in the script.
- The mosaicking steps after MOSDEF (`mosrun`, pyramids) are not modelled. They only take the file names that `Mosaic.MosaicNames` describes.
- Errors from unbound Python names, out-of-range indexes and `min` of an empty list are modelled as aborts with the Python message. Where several such errors could occur, the first one in script order is the one modelled.
- Errors raised by the vendor engine are modelled as aborts whose message names the failing step, not as the engine's own text. The one such abort is the ortho script's extent option outside 1 to 3: the ortho call fails on the unbound window (`ulx`) for every file, that error is only printed, and the unguarded footprint step then stops the run on the output that was never written.
- UNC paths (`\\server\share`) are not modelled, and neither is `.lower()` on non-ASCII letters. Paths are drive-letter Windows paths; lowering maps `A`-`Z` only.
- PsiqInterp.Validate: the test `input_channels == 1` compares a list with an integer and is always false, so it is left out. A bad channel index stops the whole run. The index depends only on the channel list, so the run always fails on the first file. The channels of that file converted before the bad value are not modelled.
- Reprojection.Run: the `override_resolution` option is never used by the script and is not modelled. The reprojection call is not inside a `try`, so it is taken to succeed.
- SarIngest.Run: an ingested output is taken to exist before the next scene is checked for a clash, whatever the engine did with it.
- Ortho.Products: the failure path of the ortho call (a message, then a footprint call on a missing file) is not modelled. The data list holds every product.
- SarIngest.Target and Ortho.TargetsTaken: a name is taken only when the same text is among the existing paths. The scripts ask Windows, whose file names ignore letter case, so two names differing only in case clash in the script but not in the model. Case-insensitive file systems are not modelled.
- Landsat.Run: every import is taken to succeed. In the script a failed import is only printed, and with clipping on the run then stops when the clip step opens the missing output. The deletion of the imported files after clipping (`delete_original_after_clipping`) is not modelled either; the plan only records the option.
- The SAR collision test looks for a name in the output folder: the output names in the set of existing paths are relative to that folder, while the clip file and DEM are full paths.
- S2FindData.Ingested and the Sentinel-2 imports: whether an import fails is an input set. The importer is not modelled.
