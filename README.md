# AmpliconPipeline staging and taxonomy labels, modelled in Dafny

AmpliconPipeline prepares Illumina MiSeq runs for a QIIME 2 amplicon analysis.
This project models the pipeline's deterministic core and proves properties
of the model:

- **Sample ids and read pairing** (`sample_ids.dfy`). `valid_olc_id` checks the
  13-character OLC sample id (`<digits>-SEQ-<digits>`) at the start of a read
  file's name. `retrieve_unique_sampleids` collects the distinct ids.
  `get_readpair` picks each sample's forward (R1) and reverse (R2) read.
  `populate_sample_dictionary` builds the id → pair dictionary.
- **Staging over a file system** (`vfs.dfy`, `staging.dfy`). The file system is
  a map from absolute path to entry, held in a `FileSystem` class whose
  `Mkdir`, `Symlink`, `Rename` and `Glob` stand for `os.mkdir`, `os.symlink`,
  `os.rename` and `glob.glob`. On top of it come `get_sample_dictionary`,
  `create_symlink` / `symlink_dictionary` (one link per read in the data
  folder, with per-sample failures swallowed), and `append_dummy_barcodes`
  (every `_S` becomes `_00_S`). Last come `project_setup` and the `main`
  entry point of `project_setup.py`, which run these in a fixed order.
- **Taxonomy labels for the pie charts** (`pie_chart.dfy`): `extract_taxonomy`,
  the column filter of `prepare_df`, `prepare_plot` and `generate_pct_labels`.

Supporting modules: `wrappers.dfy` holds Option, Result and the Python
exceptions the code raises. `strings.dfy` models `str.split`, `str.replace`,
`in`, `startswith`, `isdigit` and slicing. `paths.dfy` models `os.path`'s
`basename`, `dirname`, `join` and `abspath`.

Python exceptions are values: `Result`/`Outcome` carry `IndexError`,
`TypeError`, `FileExistsError` and the other OSError kinds. Where Python's
behaviour leaves an order open, the model leaves it open. This covers the
order of `glob` results and of `list(set(...))`. The contracts hold for
every order. Where a later step depends on the order glob chose, the method
returns that listing as a ghost out-parameter.

Behaviour worth knowing:

- A sample without a forward read is kept in the dictionary with the value
  `None`; it is not dropped.
- A sample with a forward read but no reverse read makes `os.path.abspath(None)`
  raise `TypeError`, which ends `get_sample_dictionary`. The sample is not
  emitted with a missing mate.
- `valid_olc_id` raises `IndexError` only for ids that are all digits or
  digits followed by "-SEQ", because Python's `and` reaches the missing
  component only then. Every other short id, such as "abc", "" or
  "12-XYZ", gives False.
- `os.mkdir("")` raises FileNotFoundError and `os.path.isdir("")` is False,
  so `main` with an empty outdir raises FileNotFoundError at the first mkdir.
  A trailing '/' names the same folder: "out/" behaves like "out".
- `main` quits for missing options only when both are missing, because the
  condition uses `and`.

## Model

| member | source | states |
|---|---|---|
| SampleIds.OlcPrefix | bin/helper_functions.py:99 | The candidate id has at most 13 characters and lies inside the basename (it holds no '/'). |
| SampleIds.ShapedIsValid | bin/helper_functions.py:99-103 | For `a-SEQ-b` followed by nothing or by '-' and anything, with a and b digits, the split on '-' gives components a, "SEQ", b. Anything after the third component is ignored. |
| SampleIds.ValidOlcId | bin/helper_functions.py:99-106 | valid_olc_id either returns a verdict or raises, and the only exception it raises is IndexError. |
| SampleIds.ValidOlcIdCharacterized | bin/helper_functions.py:99-106 | valid_olc_id returns True exactly for OLC-shaped ids. It raises exactly for ids that are all digits or digits followed by "-SEQ", and the error is IndexError. Every other id gives False. |
| SampleIds.SampleIdIsValid | tests/test_project_setup.py:37-40 | The id taken from a valid file is its own 13-character prefix, and valid_olc_id accepts it. |
| SampleIds.CollectedIdsSpec | bin/helper_functions.py:34-37 | The collecting loop fails exactly when some file makes valid_olc_id raise. Otherwise it collects exactly the ids of the files that pass. |
| SampleIds.RetrieveUniqueSampleIds | bin/helper_functions.py:26-42 | The loop raises IndexError exactly when some file's validation raises. Otherwise the result has no duplicates, and its members are exactly the 13-character prefixes of the files that pass. |
| SampleIds.MateOf | bin/helper_functions.py:54-58 | A file counts as a mate of the id only when its basename contains the id. R1 is checked first, so a file taken as the reverse read has no "R1" in its basename. |
| SampleIds.LastMateIndex | bin/helper_functions.py:53-58 | Among the first n files, the kept index is the last one classified as the mate, or -1 when there is none; no later file among them is classified as it. Classification is containment of the id in the basename, R1 before R2. |
| SampleIds.MateAfterStep | bin/helper_functions.py:53-58 | Scanning one more file keeps that file when it is classified as the mate, replacing any earlier match; otherwise the kept file is unchanged. |
| SampleIds.GetReadPair | bin/helper_functions.py:45-62 | The scanning loop returns exactly ReadPairOf: the last forward and the last reverse match, then the three-way outcome. |
| SampleIds.LastMateFinds | bin/helper_functions.py:53-58 | No file is kept exactly when no file is classified as that mate. A kept file is one of the input files and is of that mate. |
| SampleIds.ReadPairOutcomes | bin/helper_functions.py:59-62 | get_readpair returns None exactly when there is no forward match. It raises TypeError exactly when there is a forward match but no reverse one. Otherwise it returns the absolute paths of a forward and a reverse match. |
| SampleIds.ReadPairIgnoresOrder | bin/helper_functions.py:53-58 | When a sample has at most one forward and at most one reverse file, any reordering of the file list gives the same result. |
| SampleIds.SetSpec | bin/helper_functions.py:76 | `d[id] = value` keeps the dictionary well formed, makes id a key holding value, keeps every other key's value, and appends a new key at the end of the insertion order. |
| SampleIds.PopulatedSpec | bin/helper_functions.py:73-77 | Building the dictionary fails exactly when some id's pairing raises, and then with TypeError. Otherwise the keys are exactly the input ids, each holds that id's pairing (None included). When the ids are distinct, the insertion order is their order. |
| SampleIds.SetKeepsValueOrder | bin/helper_functions.py:76 | Assigning a new key appends its value at the end of the values in iteration order. Assigning an existing key replaces its value in place and leaves every other value and the length unchanged. |
| SampleIds.PopulatedValues | bin/helper_functions.py:73-77 | For distinct ids, the built dictionary yields one value per id, in the order of the ids, each being that id's pairing. |
| SampleIds.PopulatedStopsAtError | bin/helper_functions.py:74-76 | Once one id's pairing has raised, later ids are never reached. |
| SampleIds.PopulateSampleDictionary | bin/helper_functions.py:65-77 | The insertion loop yields exactly the dictionary, or the error, that PopulatedSpec describes. |
| Vfs.CreateSpec | bin/helper_functions.py:122-123 | Making an entry succeeds exactly when the path is free and its folder is a directory. It then adds that entry alone. Otherwise nothing changes, and an existing path gives FileExistsError. |
| Vfs.RenameSpec | bin/helper_functions.py:118 | A rename succeeds exactly when the source is a present non-directory, the destination is not a directory and its folder is one. The entry then moves, an existing destination is replaced, and every other entry is kept. A failure changes nothing. |
| Vfs.GlobMatchIsEntry | bin/helper_functions.py:7-13 | Each path glob reports is the folder joined with a visible `*.fastq.gz` name. Its absolute path is an entry directly inside the folder, with the same basename. |
| Vfs.OsPathResolution | project_setup.py:127-132 | A path with a trailing '/' names the same folder for isdir and mkdir. The empty path is not a directory, and mkdir on it raises FileNotFoundError with nothing changed. |
| Vfs.FileSystem.Mkdir | bin/helper_functions.py:163 | `os.mkdir` creates a directory under the rule of CreateSpec, for the path resolved against the working directory. An empty path raises FileNotFoundError. |
| Vfs.FileSystem.Symlink | bin/helper_functions.py:123 | `os.symlink` creates a link entry under the rule of CreateSpec. The target is recorded, not checked. An empty link path raises FileNotFoundError. |
| Vfs.FileSystem.Rename | bin/helper_functions.py:118 | `os.rename` acts on the resolved paths under the rule of RenameSpec. An empty source or destination raises FileNotFoundError. |
| Vfs.FileSystem.Glob | bin/helper_functions.py:12 | The result lists each match exactly once, in some order. |
| Vfs.GlobIgnoresTrailingSlash | bin/helper_functions.py:12 | Globbing "in/" finds the same entries as globbing "in", under the same reported prefix. |
| Staging.GetSampleDictionary | project_setup.py:57-61 | The composition glob → retrieve_unique_sampleids → populate_sample_dictionary gives IndexError if a listed file's validation raises. Otherwise it gives TypeError if some sample lacks only its reverse read. Otherwise the keys are exactly the sample ids of the listed files, each mapped to its pairing. |
| Staging.CreateSymlink | bin/helper_functions.py:122-123 | The link is made at `join(folder, basename(target))`, resolved against the working directory, and points at target. |
| Staging.LinkAtSpec | bin/helper_functions.py:122-123 | create_symlink succeeds exactly when the link path is nonempty, free and in an existing folder. It then adds that link alone; otherwise nothing changes. |
| Staging.LinkInFolder | bin/helper_functions.py:123 | A link sits directly in the destination folder under the basename of its target. |
| Staging.LinkReadPair | bin/helper_functions.py:133-138 | One sample's two create_symlink calls leave exactly the tree StageSample gives: forward link, then reverse link, the reverse skipped when the forward raises, any raise swallowed; an unpaired (None) sample changes nothing. |
| Staging.SymlinkDictionary | bin/helper_functions.py:126-138 | The loop leaves exactly the tree StageAll gives: the samples in dictionary order, forward link then reverse link, with every failure swallowed. |
| Staging.StageSampleKeeps | bin/helper_functions.py:133-138 | Staging one sample never alters or removes an existing entry, so a colliding link is left alone. |
| Staging.StageSampleAdds | bin/helper_functions.py:134-135 | Staging a sample adds only its own two links, each pointing at its read. |
| Staging.StageSampleCreates | bin/helper_functions.py:134-135 | A sample whose two link names are distinct and free in an existing folder gets both links. |
| Staging.StageSampleKeepsPartial | bin/helper_functions.py:133-138 | When the reverse link name is taken, the forward link that was made stays. Nothing is rolled back. |
| Staging.StageAllFrame | bin/helper_functions.py:132-138 | symlink_dictionary keeps every existing entry. Every entry it adds is a link of one of the samples. |
| Staging.StageAllCreates | bin/helper_functions.py:132-138 | A collision costs only the colliding sample: every sample whose link names are distinct, free and not shared gets both links, whatever happens to the others. |
| Staging.AppendDummyBarcodes | bin/helper_functions.py:109-119 | The loop leaves exactly the tree and outcome of RenameAll over the glob listing. Each valid file moves from its absolute path to that path with every `_S` replaced by `_00_S`. The first raise ends the run. |
| Staging.BarcodedKeepsSampleId | project_setup.py:83-85 | When the id holds no '_', the renamed file has the same 13-character id and the same valid_olc_id verdict. Its name is the renamed basename. |
| Staging.BarcodedIsNormal | bin/helper_functions.py:118 | Renaming an absolute path without a trailing '/' gives a path without one, so the rename target resolves to itself. |
| Staging.BarcodedStaysInFolder | bin/helper_functions.py:118 | When the folder path holds no '_', the renamed file stays in its folder. |
| Staging.BarcodedLeavesFolder | bin/helper_functions.py:118 | When the folder path contains `_S`, the replacement rewrites the folder too. The target folder then differs, and if it does not exist the rename raises FileNotFoundError and changes nothing. |
| Staging.RenameAllFrame | bin/helper_functions.py:115-118 | Only valid files move: an entry that is neither a valid listed file nor a renamed form of one keeps its name and content. |
| Staging.RenameAllStaysInFolder | project_setup.py:143-144 | When the data folder's path holds no '_', renaming touches no entry outside that folder. |
| Staging.FoldersSpec | bin/helper_functions.py:163-165 | An empty outdir makes the first mkdir raise FileNotFoundError, and an existing one FileExistsError, with nothing created. A new outdir in an existing folder gets outdir, outdir/data and outdir/qiime2, and nothing else. |
| Staging.FoldersIgnoreTrailingSlash | bin/helper_functions.py:163-165 | Creating the folders for "out/" has the same outcome and the same tree as for "out". |
| Staging.CreateFolders | project_setup.py:132-134 | The three mkdir calls run in order, and the first one that raises ends the sequence. |
| Staging.PrepareSamples | bin/helper_functions.py:168-184 | The dictionary, the links in outdir/data, the renaming of what glob lists there, and the artifact path as the result, in that order. Any raise passes through. |
| Staging.ProjectSetup | bin/helper_functions.py:161-184 | The folders are created first, and a failing mkdir ends the run. The remaining steps then run as PrepareSamples states. The result is `join(qiimedir, 'paired-sample-data.qza')` whatever the import printed. |
| Staging.SetupMain | project_setup.py:120-148 | main quits, with nothing changed, when both options are missing or outdir is an existing directory (never the case for an empty outdir, which then raises FileNotFoundError at the first mkdir). A missing outdir alone raises TypeError before anything is created. Otherwise the folders come first, a missing inputdir then raises TypeError, and otherwise dictionary → links → rename → import run in order. |
| PieChart.LastLongIndex | bin/generate_pie_chart.py:32-35 | Picks the last piece longer than 6 characters; every later piece is at most 6 long. |
| PieChart.ExtractTaxonomy | bin/generate_pie_chart.py:15-37 | The method, with its reversed early-exit loop, returns exactly Taxonomy(value, level). |
| PieChart.UnassignedWins | bin/generate_pie_chart.py:20-21 | A value containing `Unassigned;_` gives "Unassigned" at every level. |
| PieChart.WorkingStringIsSegment | bin/generate_pie_chart.py:23-28 | The working string is the text between the first and second occurrence of the level's marker, or all the text after the first. It is the whole value for an unknown level, an absent marker or an empty segment. |
| PieChart.CleanedChoosesLastLongPiece | bin/generate_pie_chart.py:31-35 | A string without both ';' and `__` is unchanged. Otherwise the result is the last ';'-piece longer than 6 characters, or the string itself when no piece is that long. |
| PieChart.TaxonomyIsSlice | bin/generate_pie_chart.py:15-37 | The result is always a contiguous part of the input value. |
| PieChart.TaxonomyColumns | bin/generate_pie_chart.py:74-78 | Keeps exactly the columns starting with `D_0__` or `Unassigned;`, never adding any. |
| PieChart.ColumnsWith | bin/generate_pie_chart.py:80-81 | Keeps exactly the columns containing the keyword. |
| PieChart.PreparedColumns | bin/generate_pie_chart.py:74-81 | The two drops keep exactly the taxonomy columns that also contain the keyword, when one is given. |
| PieChart.PreparedColumnsIdempotent | bin/generate_pie_chart.py:74-81 | Filtering already filtered columns changes nothing. |
| PieChart.SortByValueDescending | bin/generate_pie_chart.py:135 | The sorted entries are a permutation of the input with non-increasing abundances. |
| PieChart.SortByValueDescendingStable | bin/generate_pie_chart.py:135 | Entries with equal abundance keep their input order, as `sorted(..., reverse=True)` does. |
| PieChart.PreparePlot | bin/generate_pie_chart.py:126-160 | An empty sample raises IndexError at `explode[0]`. Otherwise values, labels and explode all have length n. The values are the sorted abundances, and each label is its key iff the value exceeds 2, else "". Explode is 0.1 for the first min(n, 3) positions and 0 after. |
| PieChart.GeneratePctLabels | bin/generate_pie_chart.py:178-187 | The append loop over the zipped pairs yields exactly PctLabels. |
| PieChart.PctLabelsOnePerLabel | bin/generate_pie_chart.py:178-187 | There is exactly one entry per non-empty label below the shorter length, in input order, carrying that position's label and value. |
| PieChart.PctLabelsAboveThreshold | bin/generate_pie_chart.py:154-159 | With prepare_plot's labels, every emitted percentage belongs to a wedge above 2 and has a non-empty name. |

## Left out

- Logging, `execute_command` and the `qiime tools import` command that
  `create_sampledata_artifact` runs. The model keeps only the path that
  function returns.
- `os.path.abspath` is modelled as joining onto the working directory and
  dropping trailing '/'. Its normalisation of `.`, `..` and repeated '/' is
  not modelled.
- Vfs.FileSystem.Symlink: a trailing '/' on the link path is dropped as for
  mkdir, whereas the kernel never creates a link at such a path. The staging
  code only passes link paths ending in a read file's basename.
- Vfs.FileSystem.Rename: a trailing '/' on either path is dropped as for
  mkdir, whereas the kernel then refuses to rename a file. The staging code
  only passes absolute paths returned by abspath, which carry no trailing '/'.
- `str.isdigit` is modelled for ASCII digits only. Python also accepts other
  Unicode digits.
- Vfs.RenameAt: renaming a directory fails with IsADirectoryError, so moving a
  directory is not modelled. Only read files and links are renamed here.
- Vfs.FileSystem.IsDir: a symbolic link to a directory does not count as a
  directory. `os.path.isdir` follows links, and link resolution is not
  modelled.
- `glob` is modelled for the fixed `*.fastq.gz` pattern in a folder whose
  path holds no glob metacharacters. Permissions and I/O errors are not
  modelled.
- The test fixture directory (tests/test_project_setup.py:16-27): the names
  of the files under tests/sample_miseq are not part of this model, so the
  "two ids, two reads each" outcome is not stated for it.
- `test_execute_command` concerns subprocess behaviour and is not modelled.
- `prepare_df` beyond its column filters: reading the CSV, transposing,
  mapping `extract_taxonomy` over the index, and `convert_to_percentages`.
  Columns are treated as a list of names, so pandas' handling of duplicate
  labels is not modelled.
- `prepare_plot` takes the sample's (taxonomy, abundance) items directly.
  `df.to_dict()[sampleid]` and its KeyError for an unknown sample are not
  modelled. Abundances are real numbers, so floating-point rounding and NaN
  are not modelled.
- PieChart.GeneratePctLabels: the label text `name\n(%.2f%)` is represented
  as a (name, percent) pair. The two-decimal formatting is not modelled.
- Plot drawing, `style_wedges` (random colours), the colour pickle,
  `get_spaced_colors`, `paired_pie_charts` and `extract_viz_csv`.
- `TAXONOMIC_LEVEL` is a module global set by the command line. Here it is
  the `level` parameter of ExtractTaxonomy.
- qiime2pipeline.py and train_classifier.py only call QIIME 2 plugins, and
  bin/cli.py only parses options and sequences the calls above. None of them
  is part of this model.
