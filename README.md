# cformat, modelled in Dafny

cformat reads a unified diff and runs `clang-format` only on the lines the
diff touched. The diff parser hands it an ordered list of hunks, each a
`(source, destination)` pair of `File { file, line, count }` records. The
`format` function (src/lib.rs) walks that list once. It keeps the file of the
open batch (`last_dst`) and the `--lines=<start>:<end>` arguments gathered so
far (`lines`). When a hunk's destination file differs from the open batch's
file, it flushes the batch with one `clang-format -i <file> <lines...>` call
(`format_now`). It flushes once more at the end. The first failed call ends
the run through `?`. `await_child` turns a failed exit into an error that
names the program and, when the process wrote one, the trimmed first line of
its standard error.

The project has five modules, one per file:

- `Diff` (diff.dfy): the hunk records the parser yields. Only the fields the
  formatter reads are kept.
- `Text` (text.dfy): the standard-library behaviour the strings go through.
  This covers the decimal rendering of `usize`, `char::is_whitespace`,
  `str::trim` and one `BufRead::read_line`.
- `Child` (child.dfy): `await_child` as a pure function. The child's wait is
  an input value: a wait error, or an exit status together with the state of
  standard error.
- `Batching` (batching.dfy): the batching policy as a specification. `Runs`
  cuts the hunks into maximal runs of equal destination file, by contiguity.
  Lemmas show these are the unique maximal runs.
- `Cformat` (format.dfy): `format_now` and `format` as methods. `Plan` is the
  list of commands for the runs, and `Execute` is fail-fast execution of a
  command list. `Format` is proved to return exactly
  `Execute(Plan(diffs), Verdicts(world))`.

The operating system is an oracle, `world: nat -> Spawn`. `world(k)` says
what spawning the `k`-th invocation and waiting for it yields. `Verdicts`
maps that through `await_child` to the invocation's result. Each attempted
command, `Invocation(program, args)`, is appended to a log that `Format`
returns. A command whose spawn fails is still logged, because it was
attempted.

A failed exit whose captured standard error is empty still gets the `": "`
suffix. `read_line` succeeds with an empty line at end of stream, and the code
then appends `": " + line` (src/lib.rs:40-42). The message is then
``process `clang-format` failed: `` (`Child.EmptyOrMissingStderr`).

## Model

| member | source | states |
|---|---|---|
| `Cformat.Format` | src/lib.rs:52-92 | The result and the log of attempted commands are exactly those of executing, fail-fast, one command per maximal run of destination file, in input order |
| `Cformat.FormatNow` | src/lib.rs:53-64 | Appends `clang-format -i <file> <lines_args...>` to the log; the result is a spawn failure's OS error, or else what `await_child` makes of the wait |
| `Cformat.HunkRange` | src/lib.rs:79-80 | The range starts at the hunk's first destination line and spans exactly its count, so a count of 0 gives `L:L`; `Cformat.HunkArgRoundTrip` recovers both numbers from the argument |
| `Cformat.LinesArg` | src/lib.rs:81 | The argument is `--lines=` followed only by digits and the `:` separator; `Cformat.LinesArgRoundTrip` is its inverse |
| `Cformat.Command` | src/lib.rs:54-57 | The command runs `clang-format` with `-i`, then the file, then the range arguments unchanged and in order |
| `Cformat.Launch` | src/lib.rs:61-62 | A spawn failure is that OS error; otherwise the call succeeds exactly when the wait finished with a successful exit, as `await_child` decides |
| `Cformat.Plan` | src/lib.rs:66-90 | No hunks give no command, and every command runs `clang-format`; `Cformat.PlanInvocations`, `Cformat.PlanCount` and `Batching.MaximalRunsAreRuns` pin down the rest |
| `Cformat.Execute` | src/lib.rs:72-89 | The run succeeds exactly when every command was attempted and succeeded; a failed run's log is a prefix ending at its first failure, with every earlier command successful and its error that failure's |
| `Cformat.ExecuteFailsAt` | src/lib.rs:72-89 | If command `k` is the first to fail, the run's error is its error and exactly commands `0..k` were attempted |
| `Cformat.ExecuteAfterFailure` | src/lib.rs:72 | After a failed command, later commands are never attempted and change nothing |
| `Cformat.PlanCount` | src/lib.rs:66-90 | Empty input gives no invocation; otherwise 1 invocation plus 1 per adjacent destination-file change |
| `Cformat.PlanInvocations` | src/lib.rs:54-57 | Invocation `k` is `clang-format -i <file>` plus at least one range, and its ranges are those of run `k` in order; every hunk of run `k` has that invocation's file |
| `Cformat.PlanRangeArgs` | src/lib.rs:67-81 | Concatenating all invocations' range arguments gives one `--lines=` argument per input hunk, in input order: no dedup, sort or merge |
| `Cformat.PlanFilesAlternate` | src/lib.rs:71-73 | Consecutive invocations name different files |
| `Cformat.PlanOneFile` | src/lib.rs:69-90 | Hunks all on one file give exactly one invocation carrying all their ranges in order |
| `Cformat.PlanInterleaved` | src/lib.rs:69-90 | Files A, B, A give three invocations (A, B, A) with one range each; the A hunks are not merged |
| `Cformat.PlanExample` | src/lib.rs:79-81 | Hunks A:10+2, A:20+1, B:5+3 give `-i A` with ranges 10:12 and 20:21, then `-i B` with 5:8 |
| `Cformat.LinesArgRoundTrip` | src/lib.rs:81 | A `--lines=<start>:<end>` argument parses back to its range, so distinct ranges give distinct arguments |
| `Cformat.HunkArgRoundTrip` | src/lib.rs:79-81 | A hunk's argument encodes exactly `dst.line` and `dst.line + dst.count`, including `L:L` for count 0 |
| `Cformat.LinesArgExamples` | src/lib.rs:79-81 | Ranges 10–12 and 7–7 render as `--lines=10:12` and `--lines=7:7` |
| `Batching.Runs` | src/lib.rs:66-90 | Grouping hunk by hunk from the left: no runs exactly for no hunks, and the last run is non-empty and ends with the last hunk |
| `Batching.RunsFlatten` | src/lib.rs:69-81 | The runs, concatenated, are the input: each hunk once, in order |
| `Batching.RunsGrouped` | src/lib.rs:71-85 | Every run is non-empty and all its hunks share one destination file |
| `Batching.RunsSeparated` | src/lib.rs:71-73 | Neighbouring runs have different destination files |
| `Batching.RunsAreMaximal` | src/lib.rs:66-90 | The runs are a maximal-run partition of the input |
| `Batching.MaximalRunsAreRuns` | src/lib.rs:66-90 | Any maximal-run partition of the input equals `Runs`, so the partition is unique |
| `Batching.RunsCount` | src/lib.rs:71-72 | A non-empty input has one run per destination-file change, plus one |
| `Batching.OneFileOneRun` | src/lib.rs:69-90 | A non-empty input on one file is a single run |
| `Batching.RunsSplit` | src/lib.rs:71-74 | Cutting the input where the file changes cuts its runs at the same place |
| `Child.AwaitChild` | src/lib.rs:24-48 | Ok exactly on a successful exit; a wait error propagates; a failed exit gives an `Other` error starting with "process `<program>` failed" |
| `Child.DiagnosticRoundTrip` | src/lib.rs:34-45 | A failed exit's message carries exactly the trimmed first stderr line when stderr was captured and readable, and no diagnostic otherwise |
| `Child.FirstStderrLineReported` | src/lib.rs:38-42 | A first stderr line with no surrounding whitespace appears verbatim after `": "`, whatever follows it |
| `Child.EmptyOrMissingStderr` | src/lib.rs:34-45 | Empty captured stderr gives a trailing `": "`; missing or unreadable stderr gives the bare message |
| `Child.MessageIsOneLine` | src/lib.rs:40-42 | The error message holds no line feed when the program name holds none |
| `Text.TrimmedLineIsOneLine` | src/lib.rs:40-41 | The trimmed first line read from stderr never contains a line feed |
| `Text.ReadLine` | src/lib.rs:40 | `read_line` returns a prefix of the stream that stops right after the first line feed, or all of it when there is none |
| `Text.Trim` | src/lib.rs:41 | `trim` returns a slice of its input that neither starts nor ends with whitespace, everything cut off being whitespace |
| `Text.DecimalRoundTrip` | src/lib.rs:81 | The decimal rendering used in `--lines=` reads back as the number |

## Left out

- src/main.rs is not part of this model. It locks stdin and calls the external `diff_parse::Parser`. The model takes the parser's output as the input sequence.
- Process spawning, waiting and pipe handling (`Command`, `Stdio`, `Child::wait`, `BufReader`) are replaced by the oracle `world`. The null stdin and null stdout are not modelled.
- What `clang-format` does to the file is not modelled. It is an external tool.
- `diff_parse::File` keeps only `file`, `line` and `count`. The source side of a hunk is carried but never read, as in the code.
- Cformat.HunkRange: `dst.line + dst.count` is computed on unbounded naturals. The `usize` overflow the code could hit is not modelled.
- Child.AwaitChild: the `Option<ChildStdout>` that is returned on success is dropped, because `format_now` discards it. The `to_string_lossy` conversion of the program name is the identity here, because the name is ASCII.
- Child.AwaitChild: standard error is taken as its whole contents at wait time. The progressive reads from a live pipe are not modelled. A read that fails, for example on invalid UTF-8, is the `Unreadable` case.
- Error kinds are reduced to an OS error (spawn or wait) and an `ErrorKind::Other` message. The OS's error codes are not modelled.
