# I/O trace pipeline: a Dafny model

This project models the trace-record pipeline shared by the repository's two
plotting scripts, `plot_access_pattern.py` and `plot_latency_distribution.py`,
and proves properties of it. Both scripts read a block-I/O log. Each line of
the log is `io_type,arrival_time,elapsed_time,lba,size`: integers, with the
address and the size given in 512-byte sectors.

- **Parse loop** (both scripts, `Records`, with `Text` for the string
  operations). Each line is stripped and split on `,`. A line with exactly
  five fields is read as five integers with Python's `int()`, and other lines
  are ignored. The address becomes `lba << 9` and the size `(size + 1) << 9`,
  both in bytes. A five-field line with a field that `int()` rejects raises
  `ValueError`, which ends the script. So the load as a whole fails, at the
  first such line (`LoadTrace` returns `Err(BadInteger(line, field))`).
- **Access pattern** (`Ordering`, `AccessPattern`). The records are sorted by
  arrival time with Python's stable sort. If there are any records, every
  arrival time is then reduced by the first one, which is the earliest. The
  result is split into writes (`io_type` 1) and reads (`io_type` 2).
- **Latency** (`Latency`). The reads are taken in file order. With no reads
  the script prints a message and exits with status 1. Otherwise it reports
  the smallest and largest elapsed time and the number of reads.

The log's contents are a parameter: a sequence of lines, each with its line
terminator.

Files:
- `outcomes.dfy`: `Option` and `Result`.
- `seqs.dfy`: order-preserving filter, map, and all-or-nothing conversion.
- `text.dfy`: `str.strip()`, `str.split(',')` and `int()`.
- `records.dfy`: records, unit conversion and the parse loop.
- `ordering.dfy`: the stable sort.
- `access_pattern.dfy`: the time shift and the split by kind.
- `latency.dfy`: the read selection and its summary.
- `examples.dfy`: worked logs.

A five-field line with a field that is not an integer is not skipped:
`int()` raises on it and the script stops. The model does the same.

Two kinds of whitespace are involved. `strip()` removes every `str.isspace()`
character from the ends of a line. `int()` skips fewer: of the ASCII
characters it skips only TAB..CR and SPACE, so a field that starts with one
of the separators U+001C..U+001F is rejected although `strip()` would have
removed that character. `Text.Strip` and `Text.IntStrip` are the two trims.

## Model

| member | source | states |
|---|---|---|
| Text.Trim | plot_access_pattern.py:8 | The result is a slice of the text. Everything cut off before and after it is whitespace of the given kind, and the slice neither starts nor ends with such whitespace. `strip()` is the trim by `str.isspace()`; `int()` trims by its narrower set. |
| Text.StrippedAtUnique | plot_access_pattern.py:8 | Any slice with those properties is exactly the trim of the text, so the characterisation determines the result. |
| Text.TrimIdempotent | plot_access_pattern.py:8 | Stripping twice is stripping once. |
| Text.Split | plot_access_pattern.py:8 | `split(',')` never returns an empty list, and no part contains a comma. |
| Text.SplitCount | plot_access_pattern.py:8-9 | There is one more part than there are commas in the text. |
| Text.JoinSplit | plot_access_pattern.py:8 | Joining the parts with commas gives the text back. |
| Text.SplitJoin | plot_access_pattern.py:8 | Splitting the comma-join of comma-free parts gives those parts back. |
| Text.ParseInt | plot_access_pattern.py:10-14 | `int()` accepts a token exactly when, after the whitespace it skips, what remains is one optional sign followed by digits with single underscores between digits; every character after the sign is then a digit or `_`. A value with a leading `-` is at most 0, and any other value is at least 0. |
| Text.ParseCanonical | plot_access_pattern.py:10-14 | The value `int()` returns is the one the accepted text spells: dropping the underscores, a `+` and the leading zeros, and the sign of a zero, turns the text into `str()` of that value. |
| Text.ParseShow | plot_access_pattern.py:10-14 | `int(str(n)) == n` for every integer `n`. |
| Text.ParseIntIgnoresSpace | plot_access_pattern.py:10-14 | The whitespace `int()` skips (TAB..CR, SPACE and the non-ASCII Unicode spaces) does not change what it reads. |
| Seqs.ConvertAll | plot_access_pattern.py:10-14 | The fields are read in order. The whole line succeeds exactly when every field reads, with each value the reading of its field. Otherwise it reports the first field that fails, all before it having read. |
| Seqs.Filter | plot_access_pattern.py:39-40 | A list comprehension with a condition keeps exactly the elements that satisfy it, never more elements than the input. |
| Seqs.FilterCommutes | plot_access_pattern.py:39-40 | Two selections give the same result in either order. |
| Seqs.FilterConcat | plot_access_pattern.py:39-40 | Selecting from a concatenation is concatenating the selections, so the selection keeps the input's order. |
| Records.ShiftLeftMultiplies | plot_access_pattern.py:17-18 | `x << n` equals `x * 2**n` for every integer `x`, negative ones included. |
| Records.ToBytes | plot_access_pattern.py:17-18 | The address is raw lba × 512 and the size is (raw size + 1) × 512, so the size is at least 512 when the raw size is non-negative. Both are multiples of 512, and the other fields are copied. |
| Records.FromToBytes | plot_access_pattern.py:17-18 | The conversion loses nothing: sectors can be recovered from the bytes. |
| Records.ParseLine | plot_access_pattern.py:8-26 | A line is skipped exactly when it does not have five fields. It is a record exactly when it has five fields that all read as integers, and that record is the converted five integers. Otherwise it reports the first field `int()` rejects. |
| Records.ParseLineOf | plot_access_pattern.py:9-26 | A five-field line whose fields read as given numbers is the converted record of those numbers. |
| Records.LoadTrace | plot_access_pattern.py:7-26 | The load succeeds exactly when no line has a rejected field. On failure it names a line and field that are rejected, and every earlier line is fine. |
| Records.LoadTraceConcat | plot_access_pattern.py:7-26 | Lines are read independently. The records of a concatenated log are the records of the first part followed by those of the second. A failure in the first part is reported unchanged. |
| Records.LoadTraceLine | plot_access_pattern.py:7-26 | A one-line log yields that line's record, nothing, or a failure at line 0. |
| Records.SkippedLineIgnored | plot_access_pattern.py:8-9 | A line without five fields, inserted anywhere, does not change whether the load succeeds. It also does not change the records it yields. |
| Records.LoadTraceCount | plot_access_pattern.py:9-26 | A successful load holds exactly one record per five-field line. |
| Records.OfType | plot_access_pattern.py:39-40 | The selection holds exactly the records of the given kind. |
| Records.OfTypeCount | plot_latency_distribution.py:45 | The selection is as long as the number of records of that kind. |
| Ordering.Insert | plot_access_pattern.py:29 | Inserting into a sorted sequence keeps it sorted and adds exactly that record. |
| Ordering.InsertTies | plot_access_pattern.py:29 | Insertion places the new record after every record that ties with it, and leaves every other group of ties unchanged. |
| Ordering.SortByArrival | plot_access_pattern.py:29 | The result is in non-decreasing arrival order and is a permutation of the records. |
| Ordering.SortKeepsTies | plot_access_pattern.py:29 | Records with equal arrival times keep their file order (the sort is stable). |
| Ordering.SortedTiesDetermine | plot_access_pattern.py:29 | Two sorted arrangements whose groups of ties agree are equal. |
| Ordering.StableSortIsUnique | plot_access_pattern.py:29 | Any arrangement that is sorted and keeps every group of ties in file order equals `SortByArrival`, so the model is the stable sort. |
| Ordering.FilterKeepsSorted | plot_access_pattern.py:39-40 | Selecting from sorted records gives sorted records. |
| AccessPattern.MinArrival | plot_access_pattern.py:33 | The earliest arrival bounds every arrival time from below and is one of them. |
| AccessPattern.ShiftToOrigin | plot_access_pattern.py:32-35 | Only arrival times change. On non-empty data the first becomes 0 and all pairwise differences are kept. On empty data nothing happens. |
| AccessPattern.ShiftToOriginSorted | plot_access_pattern.py:32-35 | On sorted records the shift keeps them sorted and leaves no negative arrival time. |
| AccessPattern.ShiftToOriginIdempotent | plot_access_pattern.py:32-35 | Shifting a second time changes nothing. |
| AccessPattern.ShiftBySort | plot_access_pattern.py:29-35 | A uniform shift commutes with the stable sort. |
| AccessPattern.SortFirstIsMin | plot_access_pattern.py:29-33 | After sorting, the first record carries the earliest arrival time. |
| AccessPattern.Normalize | plot_access_pattern.py:29-35 | The result is sorted, starts at 0 and has no negative time. It is the stable sort of the records with the earliest arrival subtracted from every arrival, and so a permutation of them. |
| AccessPattern.SplitByKind | plot_access_pattern.py:39-40 | `write_ops` holds exactly the type-1 records and `read_ops` exactly the type-2 records. Both are sorted when the input is. |
| AccessPattern.SplitByKindAccounts | plot_access_pattern.py:39-40 | Writes, reads and records of any other kind together are the records, each exactly once. |
| AccessPattern.SplitByKindTies | plot_access_pattern.py:39-40 | Within each group of equal arrival times, the writes and the reads keep the order that group has in the data. |
| AccessPattern.SplitByKindCount | plot_access_pattern.py:39-40 | Writes and reads together number at most the records. They number exactly the records if and only if every record is a write or a read. |
| AccessPattern.PlotAccessPattern | plot_access_pattern.py:5-40 | The script fails exactly when the load fails, with the same error. Otherwise `write_ops` holds exactly the type-1 records and `read_ops` exactly the type-2 records of the sorted, time-shifted data, each as many times as it occurs there. Both lists are sorted, have non-negative arrival times, and within each group of equal arrival times keep the group's order. |
| Latency.ReadOps | plot_latency_distribution.py:30 | The reads are exactly the type-2 records, as many as there are of them. The selection is empty exactly when no record is a read. |
| Latency.MinElapsed | plot_latency_distribution.py:40 | The minimum is at most every elapsed time and is one of them. |
| Latency.MaxElapsed | plot_latency_distribution.py:41 | The maximum is at least every elapsed time and is one of them. |
| Latency.Summarize | plot_latency_distribution.py:30-45 | Fails, as `NoReadOperations`, exactly when there is no read. Otherwise the total is the number of reads and is positive. Every read's latency lies between the minimum and the maximum, and each bound is some read's latency. |
| Latency.AnalyzeLatency | plot_latency_distribution.py:6-45 | A load failure is reported as such. `NoReadOperations` happens exactly when the load succeeds without reads. Success happens exactly when the loaded records include a read. Then the total is the number of reads, every read's latency lies between the reported bounds, and each bound is some read's latency. |
| Examples.FieldsLine1 | plot_access_pattern.py:8 | The line `2,1000,500,10,1\n` strips and splits into its five fields. |
| Examples.ParseLine1 | plot_access_pattern.py:8-26 | That line is the read at time 1000, latency 500, address 5120, size 1024. |
| Examples.ParseLine2 | plot_access_pattern.py:8-26 | `1,2000,700,20,3\n` is the write at time 2000, address 10240, size 2048. |
| Examples.LoadExample | plot_access_pattern.py:7-26 | The two-line log loads as those two records in file order. |
| Examples.AccessPatternExample | plot_access_pattern.py:7-40 | After normalisation the read is at time 0 and the write at 1000, one in each list. |
| Examples.ShortLineSkipped | plot_access_pattern.py:8-9 | A three-field line is skipped. |
| Examples.SeparatorNotSkipped | plot_access_pattern.py:10-14 | `int()` rejects a field starting with U+001C, which `strip()` would have removed. |
| Examples.NonCanonicalToken | plot_access_pattern.py:10-14 | ` +0_1_2` with a newline reads as 12. |
| Examples.NoReadsExample | plot_latency_distribution.py:30-34 | A log holding only a write ends with `NoReadOperations`. |

## Left out

- File I/O: opening the hard-coded `io_log` and iterating its lines. The log is a parameter, a sequence of lines.
- The unit change from nanoseconds to microseconds (`/ 1000.0`, plot_latency_distribution.py:37). It is floating point. Minimum and maximum are taken on the integer nanoseconds. Dividing by a positive constant keeps the order, so the same reads attain them.
- Latency.AnalyzeLatency: does not model the `OverflowError` of line 37 (plot_latency_distribution.py:37). An elapsed time too large for a float (beyond about 1.8e308) makes the conversion raise it and stops the script; the model still reports a summary for such a log, because floating point is not modelled.
- The histogram (plot_latency_distribution.py:47-55: `np.linspace`, `np.histogram`, bin centres). These are floating-point library calls whose code is not part of this model.
- All plotting, tick labels, PNG output and printed text. These are rendering and console output with nothing to state. Printing of the summary is represented only by `LatencySummary`.
- Text.ParseInt: covers ASCII digits only. `int()` also accepts other Unicode decimal digits, and refuses texts longer than 4300 digits.
- Exit status: both ways of stopping end the process with status 1, the explicit `exit(1)` and the uncaught `ValueError`. The model reports which failure happened, not the process status.
- Records.SkippedLineIgnored: states equal success and equal records, but not equal results on failure. Inserting a line shifts the line number that a failure reports.
