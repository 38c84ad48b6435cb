# HMMER attribute inference, modelled in Dafny

This project models the attribute-inference scripts of a HMMER
post-processing pipeline and the utility that tallies their output.

- **Feature derivation.** For every row of a formatted hmmscan domain table, the
  scripts derive a target point. Its score is `-log10` of a significance column.
  The v4.4 script clamps that score to exactly 306 when the raw value is at or
  below `1e-306`. Its length is column 18 minus column 17.
- **Matching.** Each target is matched against a reference table of
  `(Evalue, length, attribute)` rows by Euclidean distance. pandas `idxmin` picks
  the first row among equal minima.
- **Output.** One line per hit row is written with the matched attribute.
  - `hmmer_run_v4.py` handles one profile and writes its save file fresh.
  - `hmmer_run_v4.4.py` runs over the zipped (HMM profile, reference table)
    pairs. It removes the save file first, then appends one block of
    profile-tagged lines per profile.
- **Tally.** `count_attributes.py` reads such a file. For every line it takes
  the text after the last `-> Attribute=` marker and strips it. It counts the
  labels in an insertion-ordered `Counter` and writes `label: count` lines in
  first-seen order.

Modules (one file each):

- `Text` (`text.dfy`): the Python string operations the scripts rely on, with
  Python's meaning.
  - `str(n)` for a non-negative integer.
  - `str.split(sep)`, as CPython's left-to-right, non-overlapping scan.
  - `str.strip()`, with `str.isspace`'s white-space code points.
  - `posixpath.basename`.
- `Features` (`features.dfy`): `calculate_log_evalue_and_alignment_length` of
  both scripts, and the v4.4 clamp.
- `Matcher` (`matcher.dfy`): the reference table as a class whose `distance`
  column every query overwrites, and `idxmin` as a verified first-argmin loop.
- `Files` (`files.dfy`): the save file as a class holding its lines. Removing
  or opening the file with `'w'` truncates it, and `f.write` appends a line.
  `ReadLines` is `readlines` on the text of such a file.
- `HmmerRunV44` (`hmmer_run_v44.dfy`):
  - the v4.4 matching loop;
  - the profile name;
  - `main`'s reset and `zip` loop. The zipped pairs become a sequence of
    jobs, one per pair: the profile name, the hit rows of the profile's scan
    and the reference table.
- `HmmerRunV4` (`hmmer_run_v4.dfy`): the v4 matching loop.
- `AttributeCounter` (`count_attributes.dfy`):
  - `count_attributes`;
  - the read-back lemmas that connect the tally to the two writers.

Python's `log10` and `sqrt` are not modelled as floating point.

- `log10` is a parameter `log10: real -> real`. The properties that need it to
  behave like a logarithm assume only what `Log10Like` states. That is, it is
  monotone on the positive reals and `log10(1e-306) == -306`.
- Distances are compared squared. `Matcher.SqrtKeepsClosest` proves that taking
  any strictly increasing function of them, the square root among them, selects
  the same row.
- The external `hmmscan` run and its reformatting are a parameter
  `hmmscan: string -> seq<HitRow>`. It gives the parsed hit rows for an HMM
  path.

Two errors end a script, and the model keeps each as an outcome rather than a
precondition.

- An empty reference table makes `idxmin` raise `ValueError` as soon as there
  is a hit row to match: `EmptyReferenceAbort`.
- A profile whose scan has no rows leaves an empty formatted table, on which
  `pd.read_csv` raises `EmptyDataError` (`hmmer_run_v4.4.py:52`,
  `hmmer_run_v4.py:48`): `EmptyHitTableAbort`.

What each script leaves in its save file when it stops:

- The v4.4 run stops at the first profile that aborts. The lines of the
  profiles before it stay in the file.
- In v4, the hit table is read before the save file is opened
  (`hmmer_run_v4.py:48`, `:64`). An empty hit table leaves the file as it was.
  An empty reference table stops it after the file was truncated, so the file
  is left empty.

How the save file is opened:

- The v4.4 script removes the save file once (`hmmer_run_v4.4.py:120-121`) and
  reopens it with `'a'` for every profile (`:72`). `HmmerRunV44.Run` gives the
  resulting content.
- The v4 script opens its save file with `'w'` (`hmmer_run_v4.py:64`), so
  `HmmerRunV4.FindClosestPoints` starts from an empty file.

Reading a file back follows `readlines` in text mode.

- The written lines are joined into the file's text.
- Universal newlines turn `"\r\n"` and a lone `"\r"` into `"\n"`.
- The text is then split after every `"\n"`.

So a profile name with a line break, or an attribute with a line break anywhere
except its last character, comes back as more than one line
(`Files.ReadLinesSplitsInnerNewline`, `Files.ReadLinesSplitsInnerReturn`). A
`'\r'` that ends the attribute merges with the written newline
(`Files.ReadLinesMergesFinalReturn`).

The two scripts read different significance columns: index 5 in v4, index 6 in
v4.4. The v4.4 comment calls index 6 the right one. In HMMER's domain-table
format, index 5 is the query length. The model keeps both columns
(`HitRow.col5` and `HitRow.col6`) and uses each where its script does.
`Features.VariantsAgreeAboveBound` proves that the two scripts derive the same
target whenever the two columns hold the same value above the clamp bound.

## Model

| member | source | states |
|---|---|---|
| Text.NatToDecimal | hmmer_run_v4.4.py:96 | the row number `index + 1` is written as at least one decimal digit, with no leading zero |
| Text.DecimalRoundTrip | hmmer_run_v4.4.py:96 | reading the written row number back as decimal gives the number |
| Text.JoinSplit | count_attributes.py:21 | joining the pieces of `line.split(marker)` with the marker gives the line back, so the split loses nothing |
| Text.Split | count_attributes.py:21 | `str.split(sep)` with a non-empty separator gives at least one piece; it is CPython's left-to-right, non-overlapping scan. JoinSplit, SplitPiecesAvoidSeparator and SplitWithoutSeparator, with LastPieceAfterSeparator, pin down the last piece for a separator whose first character does not recur in it, such as the marker |
| Text.SplitPiecesAvoidSeparator | count_attributes.py:21 | no piece of the split, the last one included, contains the marker |
| Text.SplitWithoutSeparator | count_attributes.py:21 | a line without the marker splits into the line alone |
| Text.LastPieceAfterSeparator | count_attributes.py:21 | the piece `[-1]` after a written marker is exactly the text that follows it, when that text has no marker; earlier text in the line is irrelevant |
| Text.TrimStartSpec | count_attributes.py:21 | strip's left half removes a white-space prefix, all of it: the result is a suffix of the line and does not start with white space |
| Text.TrimEndSpec | count_attributes.py:21 | strip's right half removes a white-space suffix, all of it: the result is a prefix and does not end with white space |
| Text.Strip | count_attributes.py:21 | the stripped label neither starts nor ends with white space |
| Text.StripPadded | count_attributes.py:21 | stripping white space around an unpadded text gives exactly that text |
| Text.Basename | hmmer_run_v4.4.py:125 | `os.path.basename` gives a suffix of the path with no '/', preceded by '/' when shorter than the path |
| Features.AlignmentLength | hmmer_run_v4.4.py:58 | the Alignment_Length column is column 18 minus column 17, with no check: it is zero or negative exactly when the end is not after the start |
| Features.LogEvalueV4 | hmmer_run_v4.py:51 | the v4 log_Evalue column is -log10 of column 5, with no clamp |
| Features.LogEvalueV44 | hmmer_run_v4.4.py:55 | the v4.4 log_Evalue column, -log10 of column 6 with no clamp; the matcher never reads it and recomputes the clamped score, and QueryV44 states that the two agree above the bound |
| Features.TargetScoreV44 | hmmer_run_v4.4.py:76-79 | the v4.4 target score: exactly 306 when the raw value is at most 1e-306, -log10 of it otherwise |
| Features.QueryV4 | hmmer_run_v4.py:51-54 | the v4 target is the unclamped log_Evalue of column 5 together with column 18 minus column 17 |
| Features.QueryV44 | hmmer_run_v4.4.py:75-81 | the v4.4 target is 306 when column 6 is at most 1e-306, -log10 of column 6 (the line-55 column) otherwise, with column 18 minus column 17 as its length |
| Features.ClampCapsScore | hmmer_run_v4.4.py:76-79 | for a positive raw value and a monotone log10, the clamped score is the minimum of 306 and -log10(raw) |
| Features.TargetScoreBounded | hmmer_run_v4.4.py:76-79 | the v4.4 score never exceeds 306, for every raw value including zero and negatives |
| Features.VariantsAgreeAboveBound | hmmer_run_v4.4.py:75-79 | v4 and v4.4 derive the same target when their significance columns agree above the bound |
| Matcher.SqDistance | hmmer_run_v4.4.py:87 | the squared distance over the raw Evalue and length axes is never negative and is zero at the target itself |
| Matcher.Distances | hmmer_run_v4.4.py:87 | the distance column has one entry per reference row |
| Matcher.FirstArgMin | hmmer_run_v4.4.py:90 | the reference idxmin returns a position of the smallest value, and no earlier position holds that value |
| Matcher.FirstMinimumUnique | hmmer_run_v4.4.py:90 | that first minimum is unique, so idxmin's answer is determined |
| Matcher.ClosestIndex | hmmer_run_v4.4.py:87-90 | the chosen reference row is no farther than any row and strictly closer than every earlier row |
| Matcher.TieGoesToLowerIndex | hmmer_run_v4.py:73-76 | of two equally distant rows, the later one is never chosen |
| Matcher.ExactHitIsChosen | hmmer_run_v4.4.py:87-93 | a reference row at the target itself is chosen, unless an earlier row is also at distance zero |
| Matcher.MonotoneKeepsFirstMinimum | hmmer_run_v4.4.py:87-90 | applying a strictly increasing function to non-negative distances keeps the first minimum at the same position, in both directions |
| Matcher.SqrtKeepsClosest | hmmer_run_v4.4.py:87-90 | idxmin over the square roots of the squared distances selects ClosestIndex |
| Matcher.IdxMin | hmmer_run_v4.4.py:90 | pandas idxmin raises exactly on an empty column; otherwise it returns the first position of the minimum |
| Matcher.ReferenceTable.constructor | hmmer_run_v4.4.py:65 | the table holds the reference rows and no distance column yet |
| Matcher.ReferenceTable.AssignDistance | hmmer_run_v4.4.py:87 | the distance column becomes the target's distances, and the reference columns stay unchanged |
| Matcher.ReferenceTable.Closest | hmmer_run_v4.4.py:87-93 | one query overwrites only the distance column; its answer depends on the reference rows and the target alone (the error on an empty table, or ClosestIndex) |
| Files.TextFile.constructor | hmmer_run_v4.4.py:72 | an open file holds the given lines |
| Files.TextFile.Truncate | hmmer_run_v4.4.py:120-121 | removing the save file leaves no line of it |
| Files.TextFile.WriteLine | hmmer_run_v4.4.py:96 | a write appends exactly one line at the end |
| Files.ReadLines | count_attributes.py:14-15 | readlines on a file written line by line: the file's text, read with universal newlines, split after every newline |
| Files.SplitLinesFlatten | count_attributes.py:15 | the lines readlines returns concatenate to the text read, so nothing is lost or invented |
| Files.SplitLinesShape | count_attributes.py:15 | every line readlines returns is non-empty, holds '\n' only at its end, and ends with '\n' unless it is the last |
| Files.UniversalNewlinesRemovesReturns | count_attributes.py:14 | reading in text mode leaves no '\r': "\r\n" and a lone "\r" both become "\n" |
| Files.UniversalNewlinesWithoutReturn | count_attributes.py:14 | text without '\r' is read unchanged |
| Files.ReadLinesAppend | count_attributes.py:14-15 | reading back a file written in two parts gives the lines of each part, in order |
| Files.ReadLinesOfUnbroken | count_attributes.py:14-15 | when no written line holds '\n' or '\r', readlines returns exactly the written lines, each with its newline |
| Files.UniversalNewlinesPrefix | count_attributes.py:14 | text without '\r' passes through universal-newline reading unchanged, whatever follows it |
| Files.ReadLinesSplitsInnerNewline | count_attributes.py:14-15 | any line written as `l1 + "\n" + l2`, with no other line break, comes back as the two lines `l1 + "\n"` and `l2 + "\n"` |
| Files.ReadLinesSplitsInnerReturn | count_attributes.py:14-15 | any line written as `l1 + "\r" + l2`, with l2 non-empty and no other line break, comes back as the two lines `l1 + "\n"` and `l2 + "\n"` |
| Files.ReadLinesMergesFinalReturn | count_attributes.py:14-15 | a line written ending in '\r' merges with its written newline and comes back whole as `l + "\n"` |
| HmmerRunV44.MatchedAttributes | hmmer_run_v4.4.py:87-96 | the attributes written for a profile, one matched attribute per hit row, in row order |
| HmmerRunV44.ProfileLines | hmmer_run_v4.4.py:73-96 | a profile's block has exactly one line per hit row |
| HmmerRunV44.RowLine | hmmer_run_v4.4.py:96 | the v4.4 output line: `<profile> - Row <n>: Closest point -> Attribute=<attr>`; ReadBackV44Line reads its attribute back |
| HmmerRunV44.MatchedAttribute | hmmer_run_v4.4.py:87-93 | the attribute of the reference row ClosestIndex picks for the clamped target of a hit |
| HmmerRunV44.ProfileLinesExtend | hmmer_run_v4.4.py:73-96 | each row's line depends only on that row and its 1-based position, and rows come in order |
| HmmerRunV44.FindClosestPoints | hmmer_run_v4.4.py:72-96 | appends, in row order, one `<profile> - Row <n>: Closest point -> Attribute=<attr>` line per hit row, or raises before writing when rows meet an empty table |
| HmmerRunV44.ProfileNameIsLastComponent | hmmer_run_v4.4.py:125 | the profile name is the path's basename: it holds no '/' and ends the path after its last '/' |
| HmmerRunV44.ProfileName | hmmer_run_v4.4.py:125 | `os.path.basename(p).split("/")[0]`; ProfileNameIsLastComponent shows that it equals the basename |
| HmmerRunV44.Jobs | hmmer_run_v4.4.py:124-125 | zip stops at the shorter of the two lists: as many jobs as the shorter one has entries |
| HmmerRunV44.Aborts | hmmer_run_v4.4.py:127-134 | a profile stops the run when its scan has no rows (read_csv raises) or its reference table has none (idxmin raises at its first row) |
| HmmerRunV44.AbortOf | hmmer_run_v4.4.py:127-134 | which of the two errors stops the run at an aborting profile: the hit table is read first |
| HmmerRunV44.CompletedProfiles | hmmer_run_v4.4.py:124-134 | the number of jobs processed to the end: every job before it completes, and the one at it, if any, aborts |
| HmmerRunV44.RunLinesCount | hmmer_run_v4.4.py:124-134 | the save file has exactly one line per hit row of the completed profiles |
| HmmerRunV44.RunLines | hmmer_run_v4.4.py:124-134 | the save file after k completed profiles: their blocks, concatenated in zip order (its properties are RunLinesCount, RunLinesGrow and ReadBackRun) |
| HmmerRunV44.RunLinesGrow | hmmer_run_v4.4.py:124 | a later profile only appends: earlier blocks are a prefix of the file |
| HmmerRunV44.ProcessJob | hmmer_run_v4.4.py:127-134 | one loop pass: a profile with no hit rows raises at read_csv and one with rows but no reference rows raises at idxmin, both before writing; otherwise its block is appended |
| HmmerRunV44.ProcessJobs | hmmer_run_v4.4.py:124-134 | the loop appends the blocks of the jobs in zip order up to the first that aborts, and completes exactly when none aborts |
| HmmerRunV44.Run | hmmer_run_v4.4.py:115-134 | after the reset, the save file is exactly the concatenation of the completed profiles' blocks in zip order; it completes exactly when no pair aborts, and otherwise ends with the error of the first pair that aborts |
| HmmerRunV4.MatchedAttributes | hmmer_run_v4.py:70-79 | the attributes written by the v4 script, one matched attribute per hit row, in row order |
| HmmerRunV4.SaveLines | hmmer_run_v4.py:64-79 | the v4 file has exactly one line per hit row |
| HmmerRunV4.RowLine | hmmer_run_v4.py:79 | the v4 output line: `Row <n>: Closest point -> Attribute=<attr>`; ReadBackV4Line reads its attribute back |
| HmmerRunV4.MatchedAttribute | hmmer_run_v4.py:70-76 | the attribute of the reference row ClosestIndex picks for the unclamped target of a hit |
| HmmerRunV4.SaveLinesExtend | hmmer_run_v4.py:65-79 | each row's `Row <n>: Closest point -> Attribute=<attr>` line depends only on that row and its 1-based position |
| HmmerRunV4.FindClosestPoints | hmmer_run_v4.py:59-79 | the file is rewritten from empty with one line per hit row in order, or left empty when idxmin raises |
| HmmerRunV4.Run | hmmer_run_v4.py:97-108 | main: an empty hit table raises at read_csv before the save file is opened, leaving it as it was; an empty reference table leaves it empty; otherwise the file is exactly one line per hit row |
| AttributeCounter.ExtractLabel | count_attributes.py:21 | the extracted label never starts or ends with white space |
| AttributeCounter.LabelWithoutMarker | count_attributes.py:21 | a line without the marker yields its whole stripped text, so a blank line yields the empty label |
| AttributeCounter.ExtractAfterMarker | count_attributes.py:21 | the label of a line ending in marker, attribute and newline is the attribute, when the attribute is unpadded and has no marker; a line break inside it does not matter to line 21 |
| AttributeCounter.Labels | count_attributes.py:19-21 | one label per line read |
| AttributeCounter.LabelsAppend | count_attributes.py:19-21 | the labels of one more line extend the earlier labels by that line's label |
| AttributeCounter.FirstIndex | count_attributes.py:22 | the first position at which a label appears |
| AttributeCounter.FirstSeen | count_attributes.py:26 | the counter's keys are distinct, are exactly the labels that occur, and come in order of first appearance |
| AttributeCounter.FirstSeenAppend | count_attributes.py:22 | a new label is added at the end of the keys, and a known one leaves them unchanged |
| AttributeCounter.TallyAppend | count_attributes.py:22 | `counter[label] += 1`: a missing label enters with count 1, a present one grows by 1 |
| AttributeCounter.Occurrences | count_attributes.py:22 | a label's count over some lines never exceeds their number |
| AttributeCounter.TallyCountsOccurrences | count_attributes.py:22 | each label's count is the number of lines whose extracted label equals it, and a label is counted exactly when it occurs |
| AttributeCounter.TotalCountAppendLabel | count_attributes.py:19-22 | one more line adds one to the sum of the counts of the keys that contain its label |
| AttributeCounter.CountsSumToLines | count_attributes.py:19-22 | every line increments exactly one counter: the counts sum to the number of lines |
| AttributeCounter.Report | count_attributes.py:26-27 | the count file has one line per distinct label |
| AttributeCounter.CountLine | count_attributes.py:27 | one line of the count file: `<label>: <count>` |
| AttributeCounter.Tally | count_attributes.py:18-22 | the Counter after all lines, defined as the multiset of the labels restricted to those that occur; TallyCountsOccurrences ties each count to the number of lines with that label |
| AttributeCounter.ReportEntry | count_attributes.py:26-27 | line j of the count file is `<label>: <count>` for the j-th label in first-seen order and its number of lines, which is at least one |
| AttributeCounter.ReportFromTally | count_attributes.py:25-27 | emitting the counter's items in key order gives the count file |
| AttributeCounter.Counter.constructor | count_attributes.py:18 | a fresh counter has no keys |
| AttributeCounter.Counter.Increment | count_attributes.py:22 | `+= 1` on a counter: a missing key reads as 0 and is inserted last; the keys stay distinct and match the map |
| AttributeCounter.CountLabels | count_attributes.py:18-22 | the counting loop leaves the first-seen keys and, for each, the number of lines with that label |
| AttributeCounter.WriteCounts | count_attributes.py:25-27 | the writing loop emits one `label: count` line per key, in key order |
| AttributeCounter.CountAttributes | count_attributes.py:12-27 | count_attributes writes exactly the count file of the labels of the input lines |
| AttributeCounter.RowLineV44Unbroken | hmmer_run_v4.4.py:96 | a v4.4 line holds no line break when its profile name and attribute hold none, since the row number is digits |
| AttributeCounter.RowLineV4Unbroken | hmmer_run_v4.py:79 | a v4 line holds no line break when its attribute holds none |
| AttributeCounter.ReadBackV44Line | count_attributes.py:21 | a line written by the v4.4 writer reads back as its attribute, when the attribute is unpadded and has no marker |
| AttributeCounter.ReadBackV4Line | count_attributes.py:21 | the same for a line written by the v4 writer |
| AttributeCounter.ReadBackProfileLines | count_attributes.py:19-21 | reading back a v4.4 profile block yields the matched attributes in row order, when neither the profile name nor an attribute holds a line break, and no attribute holds the marker or padding |
| AttributeCounter.ReadBackSaveLines | count_attributes.py:19-21 | reading back the v4 save file yields the matched attributes in row order, when no attribute holds a line break, the marker or padding |
| AttributeCounter.LabelsOfReadConcat | count_attributes.py:15-21 | reading back two blocks of lines reads back each block, in order |
| AttributeCounter.ReadBackRun | count_attributes.py:15-21 | reading back a v4.4 run's save file yields the matched attributes of all completed profiles, in zip order and row order, under the same conditions on names and attributes |
| AttributeCounter.RunAttributesCount | hmmer_run_v4.4.py:124-134 | a run matches exactly one attribute per hit row of its completed profiles |
| AttributeCounter.RunTallyConserved | count_attributes.py:19-22 | tallying a v4.4 run's save file gives counts that sum to the number of hit rows of the completed profiles, under the same conditions |

## Left out

- `run_hmmscan_and_format` (both scripts): the external `hmmscan` binary and the `grep | tr` pipeline are the parameter `hmmscan`. The v4 script's single profile is its hit rows directly.
- `parse_arguments`, every `print`, `os.path.exists` and `os.makedirs`: argument parsing, console output and directory creation do not affect the results.
- `pd.read_csv` of the formatted hit table and of the reference table: rows arrive parsed, with integer columns 17 and 18, real columns 5 and 6, and string attributes. Only its error on a hit table with no rows is modelled (`EmptyHitTableAbort`). Pandas reading an empty attribute cell as NaN, which prints as `nan`, is not.
- The matplotlib plotting (`hmmer_run_v4.4.py:99-112`, `hmmer_run_v4.py:82-94`): it writes image files only.
- Floating point: `log10` and `sqrt` are abstract, and `1e-306` is the exact rational. The infinite score of `-log10(0)` in the unclamped v4 path, NaN values and their ordering inside `idxmin`, and rounding of the distances are not represented.
- The row number `index + 1` uses the data frame's default index. That is the 0-based position of the row, as `read_csv` builds it.
- ReadBackProfileLines: requires a profile name without '\n' or '\r' and attributes that satisfy `CleanAttribute`: no padding, no marker, no line break. A line break makes `readlines` split the written line (`Files.ReadLinesSplitsInnerNewline`, `Files.ReadLinesSplitsInnerReturn`). A marker inside the attribute moves the label. Outside that case the model states only what `Files.ReadLines` and `ExtractLabel` compute.
- ReadBackSaveLines: requires attributes that satisfy `CleanAttribute`, for the same reasons.
- ReadBackRun: requires every completed profile's name to hold no line break and its table to satisfy `CleanTable`, for the same reasons.
- RunTallyConserved: requires the same as ReadBackRun. When a written line breaks into several, the counts sum to the number of lines read, as `CountsSumToLines` states, and no longer to the number of hit rows.
- The pathname argument of `open` and the name of the formatted temporary file: each script writes one save file, modelled as one `TextFile`.
