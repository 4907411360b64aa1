/** `await_child` (src/lib.rs): waiting for a spawned process and turning a
    failed exit into an error that names the program and, when the process
    wrote one, the first line of its standard error. The operating system is
    not modelled: what `Child::wait` and `BufRead::read_line` observe is an
    input value. */
module Child {
  import opened Text

  /** The `std::io::Error`s this code produces or propagates: errors the
      operating system reports (spawning, waiting), and the
      `ErrorKind::Other` error built from a message. */
  datatype IoError = Os(reason: string) | Other(message: string)

  /** `std::io::Result<()>`; the child's stdout handle that `await_child`
      returns on success is not modelled (it is always `Stdio::null` here). */
  datatype Result = Ok | Err(error: IoError)

  /** How a process ended: an exit code, or killed by a signal. */
  datatype ExitStatus = Exited(code: int) | Signaled(signal: int)

  /** `ExitStatus::success`: exited with code zero. */
  predicate Success(status: ExitStatus) {
    status.Exited? && status.code == 0
  }

  /** The child's standard error as `await_child` finds it: not captured,
      captured but not readable as text (`read_line` fails), or captured
      holding `data`. */
  datatype Stderr = NotCaptured | Unreadable(reason: string) | Captured(data: string)

  /** What `Child::wait` yields: an error, or the exit status together with
      the state of the child's standard error at that point. */
  datatype Wait = WaitFailed(reason: string) | Finished(status: ExitStatus, stderr: Stderr)

  /** The message every failed exit starts with. */
  function FailureMessage(program: string): string {
    "process `" + program + "` failed"
  }

  /** `await_child(program, child)`, with the child's wait abstracted to
      `wait`. */
  function AwaitChild(program: string, wait: Wait): (r: Result)
    ensures r.Ok? <==> wait.Finished? && Success(wait.status)
    ensures wait.WaitFailed? ==> r == Err(Os(wait.reason))
    ensures wait.Finished? && !Success(wait.status) ==>
              r.Err? && r.error.Other?
              && |FailureMessage(program)| <= |r.error.message|
              && r.error.message[..|FailureMessage(program)|] == FailureMessage(program)
  {
    match wait
    case WaitFailed(reason) => Err(Os(reason))
    case Finished(status, stderr) =>
      if Success(status) then Ok
      else
        var error := FailureMessage(program);
        match stderr
        case Captured(data) => Err(Other(error + ": " + Trim(ReadLine(data))))
        case _ => Err(Other(error))
  }

  /** Reads the diagnostic back out of a failure message: `None` for the
      bare message, the text after `": "` otherwise. */
  function Diagnostic(program: string, message: string): Option<string> {
    var base := FailureMessage(program);
    if |message| >= |base| + 2 && message[..|base| + 2] == base + ": " then
      Some(message[|base| + 2..])
    else
      None
  }

  /** The error of a failed exit carries exactly the trimmed first line of
      the captured standard error, and carries none when standard error was
      not captured or could not be read; even an empty stream yields a
      (blank) diagnostic. */
  lemma DiagnosticRoundTrip(program: string, status: ExitStatus, stderr: Stderr)
    requires !Success(status)
    ensures AwaitChild(program, Finished(status, stderr)).Err?
    ensures Diagnostic(program, AwaitChild(program, Finished(status, stderr)).error.message)
            == if stderr.Captured? then Some(Trim(ReadLine(stderr.data))) else None
  {
    var base := FailureMessage(program);
    var m := AwaitChild(program, Finished(status, stderr)).error.message;
    if stderr.Captured? {
      assert m == (base + ": ") + Trim(ReadLine(stderr.data));
      assert m[..|base| + 2] == base + ": ";
    } else {
      assert m == base;
    }
  }

  /** A failure message is a single line whenever the program name is. */
  lemma MessageIsOneLine(program: string, wait: Wait)
    requires '\n' !in program
    requires AwaitChild(program, wait).Err? && AwaitChild(program, wait).error.Other?
    ensures '\n' !in AwaitChild(program, wait).error.message
  {
    var base := FailureMessage(program);
    assert '\n' !in base;
    if wait.stderr.Captured? {
      TrimmedLineIsOneLine(wait.stderr.data);
      var line := Trim(ReadLine(wait.stderr.data));
      assert AwaitChild(program, wait).error.message == base + ": " + line;
    }
  }

  /** `read_line` stops at the first line feed, whatever follows it. */
  lemma {:induction false} ReadLineStopsAtNewline(line: string, rest: string)
    requires '\n' !in line
    ensures ReadLine(line + "\n" + rest) == line + "\n"
  {
    if |line| > 0 {
      assert (line + "\n" + rest)[1..] == line[1..] + "\n" + rest;
      ReadLineStopsAtNewline(line[1..], rest);
      assert [line[0]] + (line[1..] + "\n") == line + "\n";
    }
  }

  /** A line that already neither starts nor ends with whitespace loses only
      its line feed to `trim`. */
  lemma TrimLine(line: string)
    requires line == [] || (!IsWhitespace(line[0]) && !IsWhitespace(line[|line| - 1]))
    ensures Trim(line + "\n") == line
  {
    var s := line + "\n";
    assert s[..|s| - 1] == line;
    if line == [] {
      assert s[1..] == [];
    } else {
      assert TrimStart(s) == s;
    }
  }

  /** When the process wrote the line `line` first on its standard error,
      the error is "process `<program>` failed: <line>". */
  lemma FirstStderrLineReported(program: string, status: ExitStatus, line: string, rest: string)
    requires !Success(status) && '\n' !in line
    requires line == [] || (!IsWhitespace(line[0]) && !IsWhitespace(line[|line| - 1]))
    ensures AwaitChild(program, Finished(status, Captured(line + "\n" + rest)))
            == Err(Other(FailureMessage(program) + ": " + line))
  {
    ReadLineStopsAtNewline(line, rest);
    TrimLine(line);
  }

  /** Standard error captured but empty still gives the `": "` suffix;
      standard error missing or unreadable gives the bare message. */
  lemma EmptyOrMissingStderr(program: string, status: ExitStatus, reason: string)
    requires !Success(status)
    ensures AwaitChild(program, Finished(status, Captured(""))) == Err(Other(FailureMessage(program) + ": "))
    ensures AwaitChild(program, Finished(status, NotCaptured)) == Err(Other(FailureMessage(program)))
    ensures AwaitChild(program, Finished(status, Unreadable(reason))) == Err(Other(FailureMessage(program)))
  {
  }
}
