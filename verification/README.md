# Structural-variant validation engine, modelled in Dafny

This project models the comparison engine of bcbio's structural-variant
validation (`bcbio/structural/validate.py`). The engine scores an ensemble of
structural-variant calls against truth sets, split by event type (DEL, DUP,
INV, ...) and by size bin. Its pieces are:

- the copy-number classifier `cnv_to_event`;
- the sub-tag matcher of `_evaluate_one`: `cnv_matches`, `wham_matches`,
  `is_breakend` and `is_caller_svtype`;
- the size stratifier `in_size_range` and the `EVENT_SIZES` table;
- the interval pipeline of `_evaluate_one`: filter, sort, merge,
  intersect-any, sort, merge and count;
- the percentage `_stat_str`;
- the driver: `callers_by_event` label parsing, plus the selection and
  call-set fallback loop of `_evaluate_multi`.

Every point where the Python raises is an `Err` of a `Result`, not a
precondition:

- `int()` on a malformed copy number;
- the two-element unpack of a tag without `_`;
- the `assert` on a caller that has no call set.

Errors are checked in the source's short-circuit order. For example,
`wham_matches` is reached only when the prefix test and `cnv_matches` both
fail. So a bare `BND` sub-tag with no `_` raises whenever the event type is
not a prefix of it, even though `is_breakend` would have accepted it.

The bedtools operations that pybedtools delegates to are written out as pure
functions over `seq<Interval>`, in 0-based half-open coordinates:

- `sort` orders by chromosome name (character by character), then by start.
- `merge` needs sorted input. It joins records on one chromosome that overlap
  or touch.
- `intersect -u` keeps each A record once if it shares at least one base with
  some B record.

Modules, in dependency order:

- `Results`: the error values and the generic loops. These are the
  first-failure map, the nested loop, filter, any and filter-with-failure.
- `Strings`: `split`, `split(sep, 1)`, `startswith`, `endswith`,
  `replace(p, "")` and `int`.
- `Intervals` and `Bedtools`: the interval algebra.
- `SizeBins` and `Stats`.
- `Classify` (`cnv_to_event`) and `Matcher` (the sub-tag predicates).
- `Comparator` (`_evaluate_one`) and `Driver` (`callers_by_event`,
  `_evaluate_multi`).

## Model

| member | source | states |
|---|---|---|
| SizeBins.EventSizesPartition | bcbio/structural/validate.py:30-31 | A length falls in some bin of `EVENT_SIZES` exactly when 1 <= length < 1000000. It then falls in exactly one bin: any bin containing it is the one found. |
| SizeBins.BinOf | bcbio/structural/validate.py:30-31 | A found bin really contains the length (lo <= end - start < hi). When none is found, no bin contains it. |
| SizeBins.InSizeRangeEventSizes | bcbio/structural/validate.py:82-85 | `in_size_range` with a bin of `EVENT_SIZES` holds for some bin exactly when 1 <= end - start < 1000000. It then holds for only one bin, so no record is counted in two bins. |
| SizeBins.ContiguousUnique | bcbio/structural/validate.py:30-31 | In a table whose bins are non-empty and each start where the previous ends, no length lies in two bins. |
| SizeBins.ContiguousCovers | bcbio/structural/validate.py:30-31 | In such a table, a length lies in some bin exactly when it lies between the first bin's low end and the last bin's high end. |
| Stats.StatOf | bcbio/structural/validate.py:33-38 | With n = 0: value 0 and a blank label. With n > 0: value * n == 100 * x, and the label carries that value, x and n. The value is never negative. |
| Stats.StatAtMostHundred | bcbio/structural/validate.py:33-38 | A count that does not exceed its total reports at most 100%. |
| Strings.ParseShow | bcbio/structural/validate.py:45 | `int()` of the decimal rendering of a natural number gives that number back. |
| Strings.Split | bcbio/structural/validate.py:45 | `split(sep)` yields at least one part. No part contains the separator. There is exactly one part iff the separator does not occur. Joining the parts with the separator gives back the input. |
| Strings.SplitJoin | bcbio/structural/validate.py:87 | Splitting the join of separator-free parts gives back exactly those parts. |
| Strings.SplitAfterSeparator | bcbio/structural/validate.py:78 | A separator-free head followed by the separator is split off as the first part, and the rest splits on its own. |
| Strings.SplitOnce | bcbio/structural/validate.py:62 | `split("_", 1)` has two parts exactly when `_` occurs. The input is then head + `_` + tail, with no `_` in the head. |
| Strings.RemoveAll | bcbio/structural/validate.py:45 | `replace("cnv", "")` never lengthens the text. Text that starts with the pattern loses at least the pattern's length. Text without the pattern's first letter is unchanged. |
| Strings.RemoveAllKeeps | bcbio/structural/validate.py:45 | A prefix in which no occurrence of the pattern starts is copied to the output unchanged, and removal continues after it. |
| Strings.RemoveAllFirst | bcbio/structural/validate.py:45 | In a + pattern + b, with no occurrence starting inside a, the result is a followed by the removal applied to b: the first occurrence is dropped and nothing before it is touched. |
| Classify.ParseAll | bcbio/structural/validate.py:45 | The copy-number list parses exactly when every part parses. Each value is the parse of its part, in order. |
| Classify.Max | bcbio/structural/validate.py:45 | `max` returns an element of the list that is at least every element. |
| Classify.CnvToEvent | bcbio/structural/validate.py:40-53 | A tag not starting with `cnv` is returned unchanged. A `cnv` tag fails exactly when a copy number is not an integer. Otherwise it becomes DEL when all copy numbers are below the ploidy, DUP when one is above it, and is returned unchanged otherwise. |
| Classify.FieldOf | bcbio/structural/validate.py:45 | The copy-number field of `cnv<field>_<rest>` is `field`, when `field` holds no `_` and no `c`. |
| Classify.ParseShowAll | bcbio/structural/validate.py:45 | `[int(x) for x in ...]` over the decimal renderings of natural numbers gives those numbers back, in order. |
| Classify.CopyNumbersRoundTrip | bcbio/structural/validate.py:44-45 | Writing copy numbers n1;n2;... into a tag `cnv<n1>;<n2>;..._<rest>` and reading them back gives the same numbers, in order. |
| Classify.SingleCopyNumber | bcbio/structural/validate.py:44-51 | `cnv<n>_<rest>` becomes DEL for n < ploidy, DUP for n > ploidy, and stays unchanged for n == ploidy. |
| Matcher.WhamMatches | bcbio/structural/validate.py:72-79 | Fails exactly when the tag has no `_`. Otherwise it is true iff the second `_`-component is `wham` and the first is DEL/UKN for DEL, DUP for DUP, or INV for INV. It is never true for any other event type. |
| Matcher.WhamTagMatches | bcbio/structural/validate.py:72-79 | A `<kind>_wham` sub-tag counts for the WHAM caller exactly for the event types its kind is lenient for, so `UKN_wham` counts as a deletion. |
| Matcher.BreakendMatchesAnyType | bcbio/structural/validate.py:80-81 | A `BND` sub-tag that contains `_` counts for every event type, subject only to the caller test. |
| Matcher.SubtagHit | bcbio/structural/validate.py:86-91 | A sub-tag counts iff the type test holds and the caller test holds. The type test is: prefix, cnv classification, WHAM leniency or breakend. The caller test is: ensemble, or a literal suffix. It fails exactly when the prefix test fails and either the cnv parse fails, or the cnv result is not the type and the tag has no `_`. |
| Matcher.AnyHit | bcbio/structural/validate.py:86-91 | A label counts iff some sub-tag counts. It fails iff some sub-tag fails and every sub-tag before it was a clean miss, and the failure is that of the first failing sub-tag. |
| Matcher.IsCallerSvtype | bcbio/structural/validate.py:86-91 | On a label split at commas: true iff some sub-tag counts, failing iff a sub-tag fails after only clean misses before it, with that first failing sub-tag's error. A label without a comma is judged exactly as its single sub-tag. |
| Results.AnyResult | bcbio/structural/validate.py:87-91 | The early-return loop answers true iff some element's test is true. It fails iff some test fails after only false answers before it, and the failure is that first failing test's. |
| Results.MapResult | bcbio/structural/validate.py:62-63 | A loop over a list succeeds iff every step succeeds. It then yields each step's value in order. A failure is the first failing step's error. |
| Results.FilterResult | bcbio/structural/validate.py:99 | Chained `filter`s keep exactly the elements passing both tests, with their multiplicities. The second test is run only on elements passing the first. The result is empty iff no element passes both. A failure is the second test's failure on the first element that passes the first test and fails the second. |
| Results.FirstFailure | bcbio/structural/validate.py:99 | Finds the failure of the chained filter: none iff every guarded test succeeds, otherwise the failure of the first guarded element whose test fails. |
| Results.Filter | bcbio/structural/validate.py:121 | The generator keeps exactly the elements satisfying its condition. |
| Results.FilterMultiset | bcbio/structural/validate.py:99 | Filtering keeps each element's full multiplicity when it satisfies the condition and drops it entirely otherwise. |
| Results.FilterAppend | bcbio/structural/validate.py:121 | The generator keeps the input order: filtering a concatenation concatenates the filtered parts. |
| Results.FlatMapAppend | bcbio/structural/validate.py:118-129 | The nested loop over a concatenation succeeds iff it succeeds on both parts, and then writes the first part's values before the second's. |
| Results.FlatMapIndex | bcbio/structural/validate.py:118-121 | In nested loops writing n values per outer element, value j of outer element i is written at position i * n + j. |
| Bedtools.Sort | bcbio/structural/validate.py:99-100 | `sort()` returns a permutation of its input, ordered by chromosome and then start. |
| Bedtools.SortOrigins | bcbio/structural/validate.py:99-100 | Sorting introduces no new start positions: every (chromosome, start) of the sorted records is one of the input's. |
| Bedtools.SortCovers | bcbio/structural/validate.py:99-100 | Sorting covers exactly the same bases. |
| Bedtools.Merge | bcbio/structural/validate.py:99-100 | `merge()` of sorted records gives records that are pairwise apart: on different chromosomes, or with a gap between them. There are never more records than in the input, and the output is empty only when the input is. Every output record starts where some input record on its chromosome starts, and well-formed, non-empty input records give well-formed, non-empty output records. |
| Bedtools.MergeFromOrigins | bcbio/structural/validate.py:99-100 | Each record the merge pass emits starts at the (chromosome, start) of the current record or of a later input record. |
| Bedtools.MergeCovers | bcbio/structural/validate.py:99-100 | Merging covers exactly the bases the input covers. |
| Bedtools.MergeKeepsSeparated | bcbio/structural/validate.py:103 | Merging records that are already pairwise apart returns them unchanged. |
| Bedtools.MergeIdempotent | bcbio/structural/validate.py:99-103 | Merging twice is merging once. |
| Bedtools.IntersectAny | bcbio/structural/validate.py:103 | `intersect(u=True)` keeps each A record, with its multiplicity, exactly when it shares a base with some B record. It drops every other record. |
| Bedtools.IntersectIsFilter | bcbio/structural/validate.py:103 | `intersect(u=True)` is the filter of A by "overlaps some record of B", in A's order. |
| Bedtools.IntersectKeepsSeparated | bcbio/structural/validate.py:103 | The overlapping subset of pairwise-apart records is still pairwise apart. |
| Comparator.Normalize | bcbio/structural/validate.py:99-100 | `.sort().merge()` yields pairwise-apart records, no more than the input, and none iff the input is empty. Every output record starts at the start of an input record on its chromosome, and non-empty input records give non-empty output records. |
| Comparator.NormalizeCovers | bcbio/structural/validate.py:99-100 | Normalizing covers exactly the bases the input covers. |
| Comparator.OverlapsNormalized | bcbio/structural/validate.py:100-103 | A call overlaps the merged truth set iff it overlaps the raw truth set, so merging the truth does not change which calls match. |
| Comparator.Compare | bcbio/structural/validate.py:99-104 | etotal and ttotal are the sizes of the sorted and merged call and truth sets. For calls with start <= end, matched is the number of merged calls that overlap some raw truth record. matched <= etotal <= number of calls, ttotal <= number of truth records, and each total is 0 iff its input is empty. |
| Comparator.MatchedIsFilter | bcbio/structural/validate.py:99-104 | For calls with start <= end, the final merged count of the intersection equals the number of merged calls that overlap some raw truth record. |
| Comparator.NormalizeSeparated | bcbio/structural/validate.py:99-100 | Records already sorted and pairwise apart are their own `.sort().merge()`. |
| Comparator.CompareAllHit | bcbio/structural/validate.py:99-104 | When calls and truth are already in normal form and every call overlaps the truth, matched equals etotal equals the number of calls. |
| Comparator.MatchedIsOverlappingCalls | bcbio/structural/validate.py:103 | The final sort and merge of the intersection returns it unchanged: it never joins two matched calls. |
| Comparator.SensitivityCanExceedHundred | bcbio/structural/validate.py:99-105 | Two separate calls overlapping one truth record give matched 2 against ttotal 1. So sensitivity can exceed 100%. |
| Comparator.OverlappingCallsCountOnce | bcbio/structural/validate.py:99-101 | Two overlapping calls merge into one record spanning both, so they count as a single call. |
| Comparator.SelectCalls | bcbio/structural/validate.py:82-99 | The filtered calls are exactly those in the bin whose label counts, with their multiplicities. The label test fails the filter only on a record in the bin, and the failure is that of the first such record whose label test fails. |
| Comparator.SelectTruth | bcbio/structural/validate.py:82-100 | The filtered truth records are exactly those in the bin, and none iff no record is in it. |
| Comparator.EvaluateOne | bcbio/structural/validate.py:66-105 | Fails exactly when the call filter fails, with its error. On success, sensitivity is the stat of matched over ttotal and precision the stat of matched over etotal, where the counts are those of the comparison of the filtered calls with the in-bin truth records. Precision is at most 100%. Sensitivity is blank iff no truth record is in the bin. Precision is blank iff no call in the bin counts for this caller and type. |
| Driver.TagPair | bcbio/structural/validate.py:62-63 | A sub-tag without `_` fails with the unpack error. A sub-tag with `_` succeeds iff `cnv_to_event` of the text before the first `_` succeeds, and otherwise fails with that text's copy-number error. On success the tag is event + `_` + caller, with no `_` in event, and the reported type is `cnv_to_event(event)`. |
| Driver.AllTagsMember | bcbio/structural/validate.py:60-62 | The scanned sub-tags are exactly the comma-separated pieces of the labels. |
| Driver.Collect | bcbio/structural/validate.py:58-63 | The defaultdict holds a caller under a type iff that (type, caller) pair was added. A missing type reads as empty. |
| Driver.CallersByEvent | bcbio/structural/validate.py:55-64 | Succeeds iff every sub-tag parses, and otherwise fails with the error of the first sub-tag, in label order, that does not parse. A caller is then recorded under a type iff some sub-tag of some label names that caller after its first `_` and classifies to that type. |
| Driver.SelectCallers | bcbio/structural/validate.py:121 | The evaluated callers are exactly the listed ones that report the type in the ensemble set, plus `sv-ensemble` when listed. |
| Driver.CallSetFor | bcbio/structural/validate.py:122-126 | A caller with its own call set uses it. A caller without one fails unless it is `sv-ensemble`, which uses the ensemble set. |
| Driver.EvaluateRow | bcbio/structural/validate.py:122-129 | A row carries its type, bin and caller, plus the two stats of `_evaluate_one` on the chosen call set. It fails exactly when choosing the set or evaluating it fails: with `MissingCallSet(caller)` when the caller has no call set, and otherwise with the error of `_evaluate_one`. |
| Driver.EvaluateCallers | bcbio/structural/validate.py:121-129 | One row per selected caller, in order. The loop succeeds iff every row does, and otherwise fails with the error of the first selected caller whose row fails. |
| Driver.EvaluateBins | bcbio/structural/validate.py:119-129 | The size loop succeeds iff every (bin, caller) evaluation does, and otherwise fails with the error of the first bin whose caller loop fails. |
| Driver.EvaluateBinsRows | bcbio/structural/validate.py:119-129 | One row per (bin, caller), bins outermost: row i * callers + j is caller j on bin i. |
| Driver.EvaluateBinsFields | bcbio/structural/validate.py:119-129 | Every row names the type, one of the bins and a selected caller. |
| Driver.EvaluateBinsComplete | bcbio/structural/validate.py:119-129 | Every bin and selected caller has its row among the written ones. |
| Driver.EvaluateTypes | bcbio/structural/validate.py:118-129 | Succeeds iff the rows of every truth set succeed, and otherwise fails with the error of the first truth set whose rows fail. Every row names a truth type, a bin of `EVENT_SIZES` and a listed caller that is active for that type. |
| Driver.FlatMapFits | bcbio/structural/validate.py:118-129 | Every row written by the loop over the truth sets names one of the truth types, a bin of `EVENT_SIZES` and a listed caller active for its type. |
| Driver.EvaluateTypesAppend | bcbio/structural/validate.py:118-129 | Truth sets are processed in order: the rows for a concatenation of truth-set lists are the rows of the first list followed by those of the second, and that loop succeeds iff both do. |
| Driver.EvaluateTypesSingle | bcbio/structural/validate.py:118-129 | One truth set contributes exactly its own rows: all size bins, the callers active for its type. |
| Driver.EvaluateTypesComplete | bcbio/structural/validate.py:118-129 | Every (truth type, bin, active caller) combination has its row, evaluated from exactly those inputs. |
| Driver.EvaluateTypesCompleteAll | bcbio/structural/validate.py:118-129 | For every truth set, bin and listed active caller at once, the row evaluates and is among the rows. |
| Driver.EvaluateTypesLabels | bcbio/structural/validate.py:107-129 | With the callers collected from the ensemble labels, a caller is evaluated for a type iff it is the ensemble or some ensemble sub-tag names it under that type: every row is of that kind, and every such (truth set, bin, caller) has its row. |
| Driver.EvaluateMulti | bcbio/structural/validate.py:107-133 | Succeeds iff the ensemble labels parse and every truth set's rows succeed; a label failure is returned as is. Once the labels parse, the result, rows or failure, is exactly that of the loop over the truth sets, so the rows are the truth sets' rows concatenated in truth-set order and a row failure is the first one. Every row names a truth type, a bin of `EVENT_SIZES` and a listed caller that is the ensemble or is named under that type by some ensemble sub-tag. Conversely, every (truth set, bin, listed caller that is the ensemble or so named) has its row among the rows. |

## Left out

- File I/O: reading BED files, writing the two CSV files, and the
  `utils.file_uptodate` cache test. The driver returns the rows it would write.
  The second CSV's two lines per row carry the same values as the row.
- BED parsing (`line.strip().split()[3]`). A record is modelled as its interval
  plus its name column.
- `dd.get_ploidy` and the configuration lookups of `evaluate`. The ploidy is a
  parameter.
- pybedtools handles, `saveas` and temporary files. The bedtools operations are
  modelled by their default semantics only.
- The `overlap` threshold (lines 92-98). It is computed but never used.
- Plotting and pandas (`_plot_evaluation` and its helpers), and `evaluate`.
- Stats.StatOf: the `"%.1f%%"` label text is not modelled. The label carries
  the exact value and the two counts instead. The value is a rational, not a
  float.
- Strings.ParseInt (not a row): accepts an optional sign and ASCII digits only.
  `int()` also accepts surrounding whitespace, underscores between digits and
  non-ASCII digits. Copy-number tags do not contain these.
- Bedtools.Sort: the relative order of records with equal chromosome and start
  is not pinned down. Merge and count do not depend on it.
- Driver.EvaluateMulti: truth sets are a sequence of (type, records) pairs in
  dictionary iteration order. Duplicate type keys are not ruled out.
- Driver.EvaluateMulti: a failure mid-loop leaves partly written CSV files in
  the source. The model returns only the error.
- Exception kinds are modelled as three error values. Python's messages and
  tracebacks are not.
