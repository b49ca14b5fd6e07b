# Genome build detection and QC-report rules

This project models two small pieces of a somatic-variant workflow.

`bin/get_genome.py` decides which human reference build a BAM was aligned
to. Its input is the `samtools faidx` index (one `name<TAB>length…` line per
sequence). It reads the lengths of the 24 canonical chromosomes, adding a
`chr` prefix to names that lack one. The resulting map is compared with the
hard-coded tables of hg19, hg38 and chm13v2, in that order. The first build
whose table contains every observed (name, length) pair is the detected
build. The run then writes the build name out. It exits with a data error
instead when no build matched, or when the STR sub-workflow was requested
and the build is not hg38.

`bin/workflow_glue/report_qc.py` supplies the QC report's self-contained rules:

- the read N50 (`compute_n50`);
- moving a column of a table (`movecol`);
- the Mapped/Unmapped status of a flagstat row (`np.select` on `ref == '*'`);
- the PASS/FAIL coverage label.

Files:

- `wrappers.dfy`: the Option and Result types.
- `genome.dfy`: module `GenomeBuild`, modelling `bin/get_genome.py`.
- `report_qc.dfy`: module `ReportQc`, modelling the rules above from `bin/workflow_glue/report_qc.py`.

Modelling choices:

- Chromosome lengths stay decimal strings, because `get_genome.py` compares them as strings.
- An index line is given already stripped and split on tabs, as `Line(name, rest)`.
- `CHROMOSOME_SIZES` and `ALLOWED_CHR` are transcribed in full.
- The parser is stated for any list of allowed names. The program uses `AllowedChr`.
- Reading `cols[1]` on a line that has no second column raises in `get_genome.py`. That crash is the `MissingLength(line)` error. It happens only when the line's normalised name is allowed: other short lines are skipped before column 1 is read.
- `main`'s ending becomes the `Outcome` datatype: `WriteBuild`, `DataError` (exit with `EX_DATAERR` and the extra context message) or `ParseCrash`.
- N50 works on natural read lengths. The sort is a descending insertion sort proved to be a permutation. The float comparison `sumlen > total / 2` is stated as `2 * sumlen > total`. The two agree while the total stays below 2^53; above that `report_qc.py` compares float64-rounded values. `.min()` of an empty selection raises in `report_qc.py`, and that case is `None`.
- `NormaliseNames`, `TableLines` and `BuildIndex` only build index lines for the lemmas: the same lines with names normalised, one line per name of a table, and the full index of one build.
- `movecol` works on column names only. A missing column is `KeyError`. An insert position past the remaining columns is `IndexError`.

## Model

| member | source | states |
|---|---|---|
| GenomeBuild.KnownBuildNames | bin/get_genome.py:9-86 | there are three builds, with distinct, non-empty names |
| GenomeBuild.Hg19Keys | bin/get_genome.py:10-34 | the hg19 table covers exactly the 24 allowed chromosomes |
| GenomeBuild.Hg38Keys | bin/get_genome.py:35-59 | the hg38 table covers exactly the 24 allowed chromosomes |
| GenomeBuild.Chm13v2Keys | bin/get_genome.py:60-85 | the chm13v2 table covers exactly the 24 allowed chromosomes |
| GenomeBuild.KnownBuildKeys | bin/get_genome.py:9-92 | every build's table has exactly the keys of ALLOWED_CHR |
| GenomeBuild.Hg19Hg38Disagree | bin/get_genome.py:10-59 | hg19 and hg38 give a different length for every chromosome they share |
| GenomeBuild.Hg19Chm13v2Disagree | bin/get_genome.py:9-86 | hg19 and chm13v2 give a different length for every chromosome they share |
| GenomeBuild.Hg38Chm13v2Disagree | bin/get_genome.py:35-85 | hg38 and chm13v2 give a different length for every chromosome they share |
| GenomeBuild.KnownBuildsDisagree | bin/get_genome.py:9-86 | no two distinct builds agree on the length of any chromosome |
| GenomeBuild.Normalise | bin/get_genome.py:102-104 | the result starts with `chr`; it equals the input exactly when the input already starts with `chr`, otherwise it is `chr` + input |
| GenomeBuild.NormaliseIdempotent | bin/get_genome.py:102-104 | adding the prefix twice is the same as once |
| GenomeBuild.NormaliseBareName | bin/get_genome.py:102-104 | a bare name and its `chr`-prefixed form normalise alike |
| GenomeBuild.ParseLine | bin/get_genome.py:102-106 | one line fails exactly when its normalised name is allowed and it has no length column, the error naming that line; otherwise every other key and its length are unchanged (what the line itself adds is in `ParseKeys` and `ParseLastLineWins`) |
| GenomeBuild.Parse | bin/get_genome.py:98-106 | an error names a line of the file; its full meaning is stated by `ParseErrorAtFirstCrash`, `ParseKeys` and `ParseLastLineWins` |
| GenomeBuild.ChromosomeSizes | bin/get_genome.py:95-108 | the loop that fills the dictionary line by line returns exactly the fold `Parse` over the lines, including the crash at a short allowed line; every key it returns is among the 24 canonical chromosomes |
| GenomeBuild.ParseErrorPersists | bin/get_genome.py:98-106 | once a prefix of the file has crashed, the whole file crashes with the same error |
| GenomeBuild.ParseErrorAtFirstCrash | bin/get_genome.py:100-106 | parsing fails if and only if some line has an allowed name and no length column, and the error names the first such line |
| GenomeBuild.ParseKeys | bin/get_genome.py:100-106 | a parsed map's keys are exactly the allowed names that some line normalises to |
| GenomeBuild.MentionsSnoc | bin/get_genome.py:98-106 | a name occurs in a file with one more line when it occurs earlier or on that line |
| GenomeBuild.ParseKeysAllowed | bin/get_genome.py:105-106 | every key of a parsed map is an allowed name |
| GenomeBuild.LastLineForSnoc | bin/get_genome.py:98-106 | the last line naming a chromosome stays the last one when a line naming another chromosome follows |
| GenomeBuild.ParseLastLineWins | bin/get_genome.py:98-106 | each parsed length is column 1 of the last line naming that chromosome: later duplicates overwrite earlier ones |
| GenomeBuild.DroppedLineIgnored | bin/get_genome.py:105-106 | a line whose normalised name is not allowed (e.g. `chrM`) leaves the result unchanged, even when it has no length column |
| GenomeBuild.ParseIgnoresPrefix | bin/get_genome.py:102-106 | an index written with bare names parses exactly as the same index with `chr` names |
| GenomeBuild.ParseSnoc | bin/get_genome.py:98-106 | parsing one more line applies that line to the map parsed so far, or keeps an earlier crash |
| GenomeBuild.ParseTableLines | bin/get_genome.py:95-108 | lines for prefixed, allowed names parse back to the table restricted to those names |
| GenomeBuild.ParseBuildIndex | bin/get_genome.py:95-108 | an index holding exactly a build's table parses back to that table |
| GenomeBuild.FirstMatch | bin/get_genome.py:115-118 | the result is `""` or the name of one of the builds; which build is stated by `FirstMatchChoosesFirst` and `FirstMatchSound` |
| GenomeBuild.FirstMatchChoosesFirst | bin/get_genome.py:115-117 | the earliest build whose items contain the observed items is returned |
| GenomeBuild.FirstMatchSound | bin/get_genome.py:115-118 | with no matching build the result is `""`; any non-empty result names a matching build |
| GenomeBuild.FirstMatchExists | bin/get_genome.py:115-117 | when some build matches, a first matching build exists at or before it |
| GenomeBuild.GetGenome | bin/get_genome.py:113-114 | an empty map gives `""` |
| GenomeBuild.GetGenomeSound | bin/get_genome.py:111-118 | a non-empty result names a build whose table contains every observed pair; the result is `""` exactly when the map is empty or no build contains it |
| GenomeBuild.GetGenomeNames | bin/get_genome.py:111-118 | the result is `""`, `hg19`, `hg38` or `chm13v2` |
| GenomeBuild.GetGenomeFirstInOrder | bin/get_genome.py:115-117 | with several matching builds, the first in table order wins |
| GenomeBuild.ClassifyPartOfTable | bin/get_genome.py:111-118 | any non-empty part of a build's table is classified as that build, and no other build contains it |
| GenomeBuild.ClassifyFullTable | bin/get_genome.py:111-118 | a build's full table is classified as that build |
| GenomeBuild.StrContext | bin/get_genome.py:128-130 | the STR message starts with `Detected genome: ` followed by the build name |
| GenomeBuild.CheckGenome | bin/get_genome.py:121-132 | the build is bad exactly when it is empty, or the workflow is `str` and the build is not hg38; the context message is empty unless it is the STR case, where it names the build |
| GenomeBuild.Run | bin/get_genome.py:148-164 | a run that writes always writes a known build, and hg38 for `str`; it crashes exactly when parsing fails |
| GenomeBuild.RunDetected | bin/get_genome.py:150-164 | once a build is detected it is written, unless `str` asks for another build, which is a data error naming the build |
| GenomeBuild.RunKnownIndexForStr | bin/get_genome.py:125-130 | a non-hg38 build's index fails the STR sub-workflow with a message naming that build |
| GenomeBuild.RunHg19IndexForStr | bin/get_genome.py:125-130 | the hg19 index with `str` is a data error naming hg19 |
| GenomeBuild.RunKnownIndex | bin/get_genome.py:148-164 | any build's index with no sub-workflow writes that build's name |
| GenomeBuild.RunEmptyIndex | bin/get_genome.py:113-114 | an empty index is a data error with no extra context |
| GenomeBuild.RunNoMatch | bin/get_genome.py:113-126 | a parsed index that matches no build is a data error with empty context |
| GenomeBuild.RunWritesIff | bin/get_genome.py:148-164 | a run writes exactly when parsing succeeds, a build is detected and the workflow accepts it |
| ReportQc.SortedDescBetween | bin/workflow_glue/report_qc.py:102 | in a descending sequence an earlier element is at least any later one |
| ReportQc.InsertDesc | bin/workflow_glue/report_qc.py:102 | inserting adds one element, adds it to the multiset and the sum, and the head is the new element or the old head |
| ReportQc.InsertDescSorted | bin/workflow_glue/report_qc.py:102 | inserting into a descending sequence keeps it descending |
| ReportQc.SortDesc | bin/workflow_glue/report_qc.py:102 | `np.sort(lengths)[::-1]` is descending, a permutation of the input, and has the same sum |
| ReportQc.IsN50 | bin/workflow_glue/report_qc.py:107 | an N50 value is one of the input lengths; `N50IsLastSelected` places it at the last selected position |
| ReportQc.ComputeN50 | bin/workflow_glue/report_qc.py:99-108 | the result is the least sorted length at a position whose suffix sum exceeds half the total; `None` only when no position qualifies |
| ReportQc.LeastSelectedLength | bin/workflow_glue/report_qc.py:104-107 | the method builds the suffix sums in an array (loop invariant); the result is the least length at a selected position, or `None` when none is selected |
| ReportQc.SuffixSumStep | bin/workflow_glue/report_qc.py:105-106 | a suffix sum is its first element plus the next suffix sum |
| ReportQc.SuffixSumNonIncreasing | bin/workflow_glue/report_qc.py:105-106 | the suffix sums never increase along the sequence |
| ReportQc.FirstPositionQualifies | bin/workflow_glue/report_qc.py:105-107 | with a positive total, the first sorted position is selected |
| ReportQc.QualifyingPrefix | bin/workflow_glue/report_qc.py:105-107 | the selected positions form a prefix of the sorted lengths |
| ReportQc.N50DefinedIff | bin/workflow_glue/report_qc.py:105-107 | some position is selected exactly when the total length is positive |
| ReportQc.LastQualifying | bin/workflow_glue/report_qc.py:105-107 | from a selected position one reaches a last selected position |
| ReportQc.N50IsLastSelected | bin/workflow_glue/report_qc.py:99-108 | the N50 is one of the input lengths, and it is the length at the last selected position |
| ReportQc.Without | bin/workflow_glue/report_qc.py:75 | popping a column removes every occurrence of its name and keeps the others |
| ReportQc.WithoutConcat | bin/workflow_glue/report_qc.py:75 | removing a name distributes over concatenation |
| ReportQc.WithoutDropsOne | bin/workflow_glue/report_qc.py:75 | where a name is inserted makes no difference once it is removed again |
| ReportQc.IndexOf | bin/workflow_glue/report_qc.py:75 | the position of the first column with the name |
| ReportQc.MoveCol | bin/workflow_glue/report_qc.py:73-75 | `movecol` succeeds exactly when the column exists and the position is below the column count; otherwise a missing column is a key error and a bad position an index error |
| ReportQc.MoveColSpec | bin/workflow_glue/report_qc.py:73-75 | after a move the column sits at `pos`, the columns are a permutation of the old ones, the others keep their order, and all stay distinct |
| ReportQc.DistinctAfterPop | bin/workflow_glue/report_qc.py:75 | popping a column leaves distinct columns without the popped name |
| ReportQc.DistinctAfterInsert | bin/workflow_glue/report_qc.py:75 | inserting a new name keeps columns distinct |
| ReportQc.DistinctAfterMove | bin/workflow_glue/report_qc.py:75 | pop then insert keeps columns distinct |
| ReportQc.Select | bin/workflow_glue/report_qc.py:62 | `np.select` picks the choice of the first true condition, or the default when none holds |
| ReportQc.RowStatus | bin/workflow_glue/report_qc.py:60-62 | a row's status is Unmapped if and only if its reference name is `*` |
| ReportQc.CoverageLabel | bin/workflow_glue/report_qc.py:253-254 | a coverage equal to the threshold is FAIL; the rest of the rule is in `CoverageLabelMonotone` |
| ReportQc.CoverageLabelMonotone | bin/workflow_glue/report_qc.py:253-254 | the label is PASS exactly when the coverage is strictly above the threshold; raising the coverage or lowering the threshold keeps a PASS |

## Left out

- File reading, `argparse`, writing to stderr, `sys.exit` and writing the output file: the run's ending is the `Outcome` value returned by `Run`.
- `line.rstrip()` and `split('\t')`: lines are given already split into a first column and the columns after it.
- `args.workflow` is modelled as an `Option<string>` (`None` when the flag is absent). In `get_genome.py` only `"str"` changes the decision, and the model keeps that.
- The rest of `report_qc.py`: the pandas loading of the depth, flagstat and chromosome-size files, `groupby`, the histograms and axis helpers, the plots, the report layout, `main` and `argparser`. These are I/O, plotting or library calls over data frames.
- ReportQc.ComputeN50: `sumlen` is unbounded rather than a 64-bit integer, and the threshold test is exact rather than against the float64 value `np.sum(lengths) / 2`. The model agrees with `report_qc.py` only while the total stays below 2^53; for example `sumlen = 2^53 + 1` with total `2^54 + 1` is selected here but not in `report_qc.py`. Overflow past 2^63 bases is not captured either.
- ReportQc.ComputeN50: read lengths are natural numbers; a numpy array of another dtype (negative or fractional values) is not modelled.
- ReportQc.ComputeN50: its `None` clause is one-directional. When some position is selected, its `Some` clause (with `IsN50` requiring a selected position) already rules out `None`.
- ReportQc.MoveCol: works on column names only; the column data moves with its name. Negative `pos` values, which pandas rejects, are not representable, and duplicate column names are excluded by the `Distinct` precondition (`read_csv` renames duplicate headers). When `pos` is out of range `report_qc.py` has already popped the column before raising. The model reports only the error.
- ReportQc.CoverageLabelMonotone: coverage and threshold are reals, not IEEE floats, so NaN is not modelled.
