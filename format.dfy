/** `format` and `format_now` (src/lib.rs): one `clang-format -i <file>
    --lines=<start>:<end>...` invocation per maximal run of hunks with the
    same destination file, made in input order, stopping at the first
    invocation that fails.

    The operating system is an oracle `world`: `world(k)` is what spawning
    and waiting for the `k`-th invocation of the run yields. The commands
    actually attempted are returned as a log. */
module Cformat {
  import opened Text
  import opened Diff
  import opened Child
  import opened Batching

  /** `CLANG_FORMAT`, the program that is invoked. */
  const ClangFormat: string := "clang-format"

  /** A `start:end` pair handed to `--lines`. */
  datatype LineRange = LineRange(start: nat, end: nat)

  /** One command line: the program and its arguments. */
  datatype Invocation = Invocation(program: string, args: seq<string>)

  /** What the operating system does with one `Command::spawn`: refuse to
      start the process, or start it and later report its wait. */
  datatype Spawn = SpawnFailed(reason: string) | Spawned(wait: Wait)

  /** The result of a (possibly aborted) run together with the commands it
      attempted, in order. */
  datatype Run = Run(result: Result, log: seq<Invocation>)

  /** The lines a hunk asks to reformat: from its first destination line up
      to that line plus its count (`end_line = dst.line + dst.count`); a count
      of zero gives `L:L`. */
  function HunkRange(h: Hunk): (r: LineRange)
    ensures r.start == h.dst.line && r.start <= r.end && r.end - r.start == h.dst.count
  {
    LineRange(h.dst.line, h.dst.line + h.dst.count)
  }

  /** `format!("--lines={start_line}:{end_line}")`: the `--lines=` flag
      followed by nothing but digits and the `:` between the two numbers. */
  function LinesArg(r: LineRange): (a: string)
    ensures |a| > 8 && a[..8] == "--lines="
    ensures forall i :: 8 <= i < |a| ==> IsDigit(a[i]) || a[i] == ':'
  {
    "--lines=" + Decimal(r.start) + ":" + Decimal(r.end)
  }

  /** Reads a `--lines=<start>:<end>` argument back. */
  function ParseLinesArg(a: string): Option<LineRange> {
    var prefix := "--lines=";
    if |a| < |prefix| || a[..|prefix|] != prefix then None
    else
      var body := a[|prefix|..];
      match IndexOf(body, ':')
      case None => None
      case Some(k) =>
        match (ParseDecimal(body[..k]), ParseDecimal(body[k + 1..]))
        case (Some(start), Some(end)) => Some(LineRange(start, end))
        case _ => None
  }

  /** Every range argument reads back as the range it was built from, so
      distinct ranges give distinct arguments. */
  lemma LinesArgRoundTrip(r: LineRange)
    ensures ParseLinesArg(LinesArg(r)) == Some(r)
  {
    var a := LinesArg(r);
    var s, e := Decimal(r.start), Decimal(r.end);
    assert a[..8] == "--lines=";
    var body := a[8..];
    assert body == s + ":" + e;
    assert ':' !in s by {
      forall i | 0 <= i < |s| ensures s[i] != ':' { assert IsDigit(s[i]); }
    }
    assert body[..|s|] == s;
    assert IndexOf(body, ':') == Some(|s|);
    assert body[|s| + 1..] == e;
    DecimalRoundTrip(r.start);
    DecimalRoundTrip(r.end);
  }

  /** The hunk a `--lines` argument came from is recovered exactly: its
      first destination line, and that line plus its count. */
  lemma HunkArgRoundTrip(h: Hunk)
    ensures ParseLinesArg(LinesArg(HunkRange(h))) == Some(LineRange(h.dst.line, h.dst.line + h.dst.count))
  {
    LinesArgRoundTrip(HunkRange(h));
  }

  /** Two renderings: `10:12`, and `7:7` for a hunk of count zero, which is
      passed on like any other. */
  lemma LinesArgExamples()
    ensures LinesArg(LineRange(10, 12)) == "--lines=10:12"
    ensures LinesArg(LineRange(7, 7)) == "--lines=7:7"
  {
    assert Decimal(10) == "10";
    assert Decimal(12) == "12";
  }

  /** The range arguments of a group of hunks, one per hunk, in order. */
  function LinesArgs(g: seq<Hunk>): seq<string> {
    seq(|g|, k requires 0 <= k < |g| => LinesArg(HunkRange(g[k])))
  }

  /** The command `format_now(file, lines_args)` runs. */
  function Command(file: string, linesArgs: seq<string>): (c: Invocation)
    ensures c.program == ClangFormat && |c.args| == 2 + |linesArgs|
    ensures c.args[0] == "-i" && c.args[1] == file && c.args[2..] == linesArgs
  {
    Invocation(ClangFormat, ["-i", file] + linesArgs)
  }

  /** One command per group, for the group's destination file. */
  function Commands(gs: seq<seq<Hunk>>): seq<Invocation>
    requires forall k :: 0 <= k < |gs| ==> gs[k] != []
  {
    seq(|gs|, k requires 0 <= k < |gs| => Command(gs[k][0].dst.file, LinesArgs(gs[k])))
  }

  /** The commands `format` runs on `hs` when none fails: one per run. */
  function Plan(hs: seq<Hunk>): (p: seq<Invocation>)
    ensures |p| == 0 <==> |hs| == 0
    ensures forall k :: 0 <= k < |p| ==> p[k].program == ClangFormat
  {
    RunsGrouped(hs);
    Commands(Runs(hs))
  }

  /** The result of one `format_now` call as the oracle decides it: a spawn
      failure propagates by `?`, otherwise `await_child` decides. */
  function Launch(spawn: Spawn): (r: Result)
    ensures spawn.SpawnFailed? ==> r == Err(Os(spawn.reason))
    ensures r.Ok? <==> spawn.Spawned? && spawn.wait.Finished? && Success(spawn.wait.status)
  {
    match spawn
    case SpawnFailed(reason) => Err(Os(reason))
    case Spawned(wait) => AwaitChild(ClangFormat, wait)
  }

  /** The verdict of each invocation: the `k`-th gets `Launch(world(k))`. */
  function Verdicts(world: nat -> Spawn): nat -> Result {
    (k: nat) => Launch(world(k))
  }

  /** Runs `cmds` in order, the `k`-th ending as `verdict(k)` says, and stops at the
      first failure. It succeeds exactly when every command was attempted
      and each succeeded; when it fails, the log ends with the failed
      command, every command before it succeeded, no later one was
      attempted, and the error is the failed command's. */
  function Execute(cmds: seq<Invocation>, verdict: nat -> Result): (run: Run)
    ensures run.log <= cmds
    ensures run.result.Ok? <==> run.log == cmds && forall k :: 0 <= k < |cmds| ==> verdict(k).Ok?
    ensures run.result.Err? ==>
              |run.log| > 0 && run.result == verdict(|run.log| - 1)
              && forall k :: 0 <= k < |run.log| - 1 ==> verdict(k).Ok?
  {
    if |cmds| == 0 then Run(Ok, [])
    else
      var before := Execute(cmds[..|cmds| - 1], verdict);
      if before.result.Err? then before
      else Run(verdict(|cmds| - 1), cmds)
  }

  /** Once a command has failed, later commands change nothing. */
  lemma {:induction false} ExecuteAfterFailure(p: seq<Invocation>, q: seq<Invocation>, verdict: nat -> Result)
    requires Execute(p, verdict).result.Err?
    ensures Execute(p + q, verdict) == Execute(p, verdict)
    decreases |q|
  {
    if |q| > 0 {
      var q' := q[..|q| - 1];
      assert (p + q)[..|p + q| - 1] == p + q';
      ExecuteAfterFailure(p, q', verdict);
    }
  }

  /** Running one more command after a successful prefix. */
  lemma ExecuteSnoc(cmds: seq<Invocation>, c: Invocation, verdict: nat -> Result)
    requires Execute(cmds, verdict).result.Ok?
    ensures Execute(cmds + [c], verdict) == Run(verdict(|cmds|), cmds + [c])
  {
    assert (cmds + [c])[..|cmds|] == cmds;
  }

  lemma CommandsSnoc(gs: seq<seq<Hunk>>)
    requires |gs| > 0 && forall k :: 0 <= k < |gs| ==> gs[k] != []
    ensures Commands(gs) == Commands(gs[..|gs| - 1]) + [Command(gs[|gs| - 1][0].dst.file, LinesArgs(gs[|gs| - 1]))]
  {
  }

  lemma CommandsAppend(gs: seq<seq<Hunk>>, hs: seq<seq<Hunk>>)
    requires forall k :: 0 <= k < |gs| ==> gs[k] != []
    requires forall k :: 0 <= k < |hs| ==> hs[k] != []
    ensures Commands(gs + hs) == Commands(gs) + Commands(hs)
  {
  }

  lemma LinesArgsSnoc(g: seq<Hunk>, h: Hunk)
    ensures LinesArgs(g + [h]) == LinesArgs(g) + [LinesArg(HunkRange(h))]
  {
  }

  /** What `format` knows after the first `i > 0` hunks: the batch of the
      last run is open with its range arguments in `lines`, and the runs
      before it were flushed successfully, producing `log`. */
  ghost predicate Flushed(hs: seq<Hunk>, lines: seq<string>, log: seq<Invocation>, verdict: nat -> Result) {
    var R: seq<seq<Hunk>> := Runs(hs);
    RunsGrouped(hs);
    |R| > 0 && lines == LinesArgs(R[|R| - 1])
    && Execute(Commands(R[..|R| - 1]), verdict) == Run(Ok, log)
  }

  /** `format_now(file, lines_args)`: appends its command to the log and
      reports the oracle's verdict on it. */
  method FormatNow(file: string, linesArgs: seq<string>, world: nat -> Spawn, log: seq<Invocation>)
    returns (r: Result, log': seq<Invocation>)
    ensures log' == log + [Command(file, linesArgs)]
    ensures r == Launch(world(|log|))
  {
    log' := log + [Invocation(ClangFormat, ["-i", file] + linesArgs)];
    match world(|log|)
    case SpawnFailed(reason) =>
      r := Err(Os(reason));
    case Spawned(wait) =>
      r := AwaitChild(ClangFormat, wait);
  }

  /** `format(diffs)`: walks the hunks once, flushing the open batch whenever
      the destination file changes and once more at the end, and returns at
      the first failed flush. Its result and its log are exactly those of
      executing the plan of `diffs`. */
  method Format(diffs: seq<Hunk>, world: nat -> Spawn) returns (r: Result, log: seq<Invocation>)
    ensures Run(r, log) == Execute(Plan(diffs), Verdicts(world))
  {
    var lastDst: Option<string> := None;
    var lines: seq<string> := [];
    log := [];
    for i := 0 to |diffs|
      invariant i == 0 ==> lastDst == None && lines == [] && log == []
      invariant i > 0 ==> lastDst == Some(diffs[i - 1].dst.file) && Flushed(diffs[..i], lines, log, Verdicts(world))
    {
      var dst := diffs[i].dst;
      ghost var pre, lines0, log0 := diffs[..i], lines, log;
      assert diffs[..i + 1] == pre + [diffs[i]];
      match lastDst {
        case Some(prevDst) =>
          if prevDst != dst.file {
            r, log := FormatNow(prevDst, lines, world, log);
            FlushStep(pre, lines, log0, Verdicts(world));
            if r.Err? {
              FlushFailed(diffs, i, Verdicts(world));
              return;
            }
            lastDst := Some(dst.file);
            lines := [];
          }
        case None =>
      }
      var startLine := dst.line;
      var endLine := dst.line + dst.count;
      lines := lines + [LinesArg(LineRange(startLine, endLine))];
      if lastDst.None? {
        lastDst := Some(dst.file);
      }
      OpenStep(pre, diffs[i], lines, lines0, log, Verdicts(world));
    }
    assert diffs[..|diffs|] == diffs;
    if lastDst.Some? {
      ghost var log0 := log;
      r, log := FormatNow(lastDst.value, lines, world, log);
      FlushStep(diffs, lines, log0, Verdicts(world));
    } else {
      r := Ok;
    }
  }

  /** Flushing the open batch of `hs` makes the log that of all runs of `hs`. */
  lemma FlushStep(hs: seq<Hunk>, lines: seq<string>, log: seq<Invocation>, verdict: nat -> Result)
    requires |hs| > 0 && Flushed(hs, lines, log, verdict)
    ensures Execute(Plan(hs), verdict)
            == Run(verdict(|log|), log + [Command(hs[|hs| - 1].dst.file, lines)])
  {
    var R: seq<seq<Hunk>> := Runs(hs);
    RunsGrouped(hs);
    var last := R[|R| - 1];
    assert last[0].dst.file == last[|last| - 1].dst.file;
    CommandsSnoc(R);
    ExecuteSnoc(Commands(R[..|R| - 1]), Command(last[0].dst.file, lines), verdict);
  }

  /** A failed flush where the destination file changes at `i` ends `format`
      with exactly the outcome of executing the whole plan. */
  lemma FlushFailed(diffs: seq<Hunk>, i: nat, verdict: nat -> Result)
    requires 0 < i < |diffs| && diffs[i - 1].dst.file != diffs[i].dst.file
    requires Execute(Plan(diffs[..i]), verdict).result.Err?
    ensures Execute(Plan(diffs), verdict) == Execute(Plan(diffs[..i]), verdict)
  {
    var a, b := diffs[..i], diffs[i..];
    assert a + b == diffs;
    RunsSplit(a, b);
    RunsGrouped(a);
    RunsGrouped(b);
    CommandsAppend(Runs(a), Runs(b));
    ExecuteAfterFailure(Plan(a), Commands(Runs(b)), verdict);
  }

  /** Pushing the range of hunk `h` after the flush decision re-establishes
      what `format` knows, now for `hs + [h]`. */
  lemma OpenStep(hs: seq<Hunk>, h: Hunk, lines: seq<string>, open: seq<string>, log: seq<Invocation>, verdict: nat -> Result)
    requires |hs| == 0 ==> lines == [LinesArg(HunkRange(h))] && log == []
    requires |hs| > 0 && hs[|hs| - 1].dst.file != h.dst.file ==>
               lines == [LinesArg(HunkRange(h))] && Execute(Plan(hs), verdict) == Run(Ok, log)
    requires |hs| > 0 && hs[|hs| - 1].dst.file == h.dst.file ==>
               lines == open + [LinesArg(HunkRange(h))] && Flushed(hs, open, log, verdict)
    ensures Flushed(hs + [h], lines, log, verdict)
  {
    var hs' := hs + [h];
    assert hs'[..|hs|] == hs;
    RunsGrouped(hs);
    RunsGrouped(hs');
    var R, R' := Runs(hs), Runs(hs');
    if |hs| == 0 {
      assert R' == [[h]];
      assert LinesArgs([h]) == [LinesArg(HunkRange(h))];
    } else if hs[|hs| - 1].dst.file != h.dst.file {
      assert Plan(hs) == Commands(R);
      assert R' == R + [[h]];
      assert R'[..|R'| - 1] == R;
      assert LinesArgs([h]) == [LinesArg(HunkRange(h))];
    } else {
      assert R' == R[..|R| - 1] + [R[|R| - 1] + [h]];
      assert R'[..|R'| - 1] == R[..|R| - 1];
      LinesArgsSnoc(R[|R| - 1], h);
    }
  }

  /** When the `k`-th command is the first to fail, the run ends with its
      error and has attempted exactly the commands up to and including it. */
  lemma ExecuteFailsAt(cmds: seq<Invocation>, verdict: nat -> Result, k: nat)
    requires k < |cmds| && verdict(k).Err?
    requires forall j :: 0 <= j < k ==> verdict(j).Ok?
    ensures Execute(cmds, verdict) == Run(verdict(k), cmds[..k + 1])
  {
  }

  /** The `--lines` arguments of an invocation: everything after `-i <file>`. */
  function RangeArgs(inv: Invocation): seq<string> {
    if |inv.args| < 2 then [] else inv.args[2..]
  }

  /** The `--lines` arguments of several invocations, one after another. */
  function AllRangeArgs(invs: seq<Invocation>): seq<string> {
    if |invs| == 0 then [] else AllRangeArgs(invs[..|invs| - 1]) + RangeArgs(invs[|invs| - 1])
  }

  lemma LinesArgsAppend(a: seq<Hunk>, b: seq<Hunk>)
    ensures LinesArgs(a + b) == LinesArgs(a) + LinesArgs(b)
  {
  }

  lemma {:induction false} CommandsRangeArgs(gs: seq<seq<Hunk>>)
    requires forall k :: 0 <= k < |gs| ==> gs[k] != []
    ensures AllRangeArgs(Commands(gs)) == LinesArgs(Flatten(gs))
  {
    if |gs| > 0 {
      var p, g := gs[..|gs| - 1], gs[|gs| - 1];
      CommandsRangeArgs(p);
      CommandsSnoc(gs);
      var cs := Commands(gs);
      assert cs[..|cs| - 1] == Commands(p);
      assert RangeArgs(cs[|cs| - 1]) == LinesArgs(g);
      LinesArgsAppend(Flatten(p), g);
    }
  }

  /** Taken together, the invocations pass every hunk's range exactly once
      and in input order: nothing is dropped, merged, sorted or repeated. */
  lemma PlanRangeArgs(hs: seq<Hunk>)
    ensures AllRangeArgs(Plan(hs)) == LinesArgs(hs)
  {
    RunsGrouped(hs);
    CommandsRangeArgs(Runs(hs));
    RunsFlatten(hs);
  }

  /** No hunks, no invocation; otherwise one invocation, plus one for each
      place where the destination file changes. */
  lemma PlanCount(hs: seq<Hunk>)
    ensures |Plan(hs)| == if |hs| == 0 then 0 else 1 + Changes(hs)
  {
    if |hs| > 0 {
      RunsCount(hs);
    }
  }

  /** The `k`-th invocation is `clang-format -i <file> <ranges>` for the
      `k`-th run: its file is that of every hunk in the run, and its ranges,
      at least one, are the run's, in order. */
  lemma PlanInvocations(hs: seq<Hunk>)
    ensures |Plan(hs)| == |Runs(hs)|
    ensures forall k :: 0 <= k < |Plan(hs)| ==>
              Plan(hs)[k].program == ClangFormat && |Plan(hs)[k].args| > 2 && Plan(hs)[k].args[0] == "-i"
              && RangeArgs(Plan(hs)[k]) == LinesArgs(Runs(hs)[k])
    ensures forall k, i :: 0 <= k < |Runs(hs)| && 0 <= i < |Runs(hs)[k]| ==>
              Runs(hs)[k][i].dst.file == Plan(hs)[k].args[1]
  {
    RunsGrouped(hs);
    var R: seq<seq<Hunk>> := Runs(hs);
    forall k | 0 <= k < |R|
      ensures RangeArgs(Plan(hs)[k]) == LinesArgs(R[k])
    {
      assert Plan(hs)[k].args == ["-i", R[k][0].dst.file] + LinesArgs(R[k]);
    }
  }

  /** Neighbouring invocations name different files: a batch is flushed only
      when the destination file changes. */
  lemma PlanFilesAlternate(hs: seq<Hunk>)
    ensures forall i, j :: 0 <= i < |Plan(hs)| && 0 <= j < |Plan(hs)| && j == i + 1 ==>
              |Plan(hs)[i].args| > 1 && |Plan(hs)[j].args| > 1 && Plan(hs)[i].args[1] != Plan(hs)[j].args[1]
  {
    RunsGrouped(hs);
    RunsSeparated(hs);
    var R: seq<seq<Hunk>> := Runs(hs);
    forall i, j | 0 <= i < |R| && 0 <= j < |R| && j == i + 1
      ensures Plan(hs)[i].args[1] != Plan(hs)[j].args[1]
    {
      assert Plan(hs)[i].args[1] == R[i][0].dst.file;
      assert Plan(hs)[j].args[1] == R[j][0].dst.file;
    }
  }

  /** Hunks all on one file give a single invocation with every range, in
      order. */
  lemma PlanOneFile(hs: seq<Hunk>)
    requires |hs| > 0 && SameFile(hs)
    ensures Plan(hs) == [Command(hs[0].dst.file, LinesArgs(hs))]
  {
    OneFileOneRun(hs);
  }

  /** Files A, B, A give three invocations, A, B and A again, with one range
      each; the two A hunks are not merged. */
  lemma PlanInterleaved(x: Hunk, y: Hunk, z: Hunk)
    requires x.dst.file == z.dst.file != y.dst.file
    ensures Plan([x, y, z]) == [
              Command(x.dst.file, [LinesArg(HunkRange(x))]),
              Command(y.dst.file, [LinesArg(HunkRange(y))]),
              Command(z.dst.file, [LinesArg(HunkRange(z))])]
  {
    var hs := [x, y, z];
    assert hs[..2] == [x, y] && [x, y][..1] == [x] && [x][..0] == [];
    assert Runs([x]) == [[x]];
    assert Runs([x, y]) == [[x], [y]];
    assert Runs(hs) == [[x], [y], [z]];
    var R := [[x], [y], [z]];
    assert LinesArgs([x]) == [LinesArg(HunkRange(x))];
    assert LinesArgs([y]) == [LinesArg(HunkRange(y))];
    assert LinesArgs([z]) == [LinesArg(HunkRange(z))];
    assert Commands(R)[0] == Command(x.dst.file, [LinesArg(HunkRange(x))]);
    assert Commands(R)[1] == Command(y.dst.file, [LinesArg(HunkRange(y))]);
    assert Commands(R)[2] == Command(z.dst.file, [LinesArg(HunkRange(z))]);
  }

  /** Hunks A:10+2, A:20+1 and B:5+3 give `-i A --lines=10:12 --lines=20:21`,
      then `-i B --lines=5:8`. */
  lemma PlanExample(s: File)
    ensures Plan([Hunk(s, File("A", 10, 2)), Hunk(s, File("A", 20, 1)), Hunk(s, File("B", 5, 3))]) == [
              Command("A", [LinesArg(LineRange(10, 12)), LinesArg(LineRange(20, 21))]),
              Command("B", [LinesArg(LineRange(5, 8))])]
  {
    var x, y, z := Hunk(s, File("A", 10, 2)), Hunk(s, File("A", 20, 1)), Hunk(s, File("B", 5, 3));
    var hs := [x, y, z];
    assert hs[..2] == [x, y] && [x, y][..1] == [x] && [x][..0] == [];
    assert Runs([x]) == [[x]];
    assert [x] + [y] == [x, y];
    assert Runs([x, y]) == [[x, y]];
    assert Runs(hs) == [[x, y], [z]];
    var R := [[x, y], [z]];
    assert LinesArgs([x, y]) == [LinesArg(LineRange(10, 12)), LinesArg(LineRange(20, 21))];
    assert LinesArgs([z]) == [LinesArg(LineRange(5, 8))];
    assert Commands(R)[0] == Command("A", [LinesArg(LineRange(10, 12)), LinesArg(LineRange(20, 21))]);
    assert Commands(R)[1] == Command("B", [LinesArg(LineRange(5, 8))]);
  }
}
