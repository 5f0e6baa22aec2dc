/** The scoring rules of the autograder's `main`: how it derives file names
    from the submission, counts compiler diagnostics, scores compilation,
    splits the arguments fixture into an argument vector, classifies how the
    tested program ended, takes in the comparator's result and adds up the
    final score. Processes, pipes, the timer and the compiler itself are not
    modelled: their results (wait statuses, diagnostic lines, fixture text)
    are inputs. */
module Autograder {
  import opened WaitStatus
  import Diff

  /** Capacity of `args_buffer`: one read of the arguments fixture takes at
      most this many characters. */
  const ArgsBufferSize: nat := 10000

  /** Capacity of `exec_path`, including its terminating NUL. */
  const ExecPathSize: nat := 1024

  datatype Option<T> = None | Some(value: T)

  /** A step of `main` either yields a value or makes `main` return 255, the
      status it reports when its own machinery fails. */
  datatype Step<T> = Ok(value: T) | Abort

  // ---------------------------------------------------------------------------
  // Names derived from the submission's file name
  // ---------------------------------------------------------------------------

  /** The program name: the source name without its last two characters (the
      `.c` suffix is assumed, not checked). */
  function ProgramName(source: string): (name: string)
    requires |source| >= 2
    ensures |name| + 2 == |source| && source == name + source[|name|..]
  {
    source[..|source| - 2]
  }

  /** The file the compiler's diagnostics are redirected to. */
  function ErrorFileName(name: string): (file: string)
    ensures |file| == |name| + 4 && file[..|name|] == name && file[|name|..] == ".err"
  {
    name + ".err"
  }

  /** `snprintf(exec_path, 1024, "./%s", name)`: the path, cut to the 1023
      characters that fit before the terminating NUL. */
  function ExecPath(name: string): (path: string)
    ensures |path| < ExecPathSize && |path| <= |name| + 2
    ensures path == ("./" + name)[..|path|]
    ensures |name| + 2 < ExecPathSize ==> path == "./" + name
    ensures |path| == Diff.Min(|name| + 2, ExecPathSize - 1)
  {
    var full := "./" + name;
    if |full| < ExecPathSize then full else full[..ExecPathSize - 1]
  }

  /** For a source named `stem.c` the program is `stem`, its diagnostics go
      to `stem.err` and it is run as `./stem`. */
  lemma DerivedNames(stem: string)
    requires |stem| + 2 < ExecPathSize
    ensures ProgramName(stem + ".c") == stem
    ensures ErrorFileName(ProgramName(stem + ".c")) == stem + ".err"
    ensures ExecPath(ProgramName(stem + ".c")) == "./" + stem
  {
    assert (stem + ".c")[..|stem|] == stem;
  }

  // ---------------------------------------------------------------------------
  // Compiler diagnostics
  // ---------------------------------------------------------------------------

  /** `p` occurs in `s` at offset i. */
  predicate OccursAt(s: string, p: string, i: int)
  {
    0 <= i && i + |p| <= |s| && s[i..i + |p|] == p
  }

  /** `strstr(s, p) != NULL`. */
  predicate Contains(s: string, p: string)
    decreases |s|
  {
    (|p| <= |s| && s[..|p|] == p) || (|s| > 0 && Contains(s[1..], p))
  }

  /** Contains is substring search: it holds exactly when `p` occurs
      somewhere in `s`. */
  lemma {:induction false} ContainsIffOccurs(s: string, p: string)
    ensures Contains(s, p) <==> exists i :: OccursAt(s, p, i)
    decreases |s|
  {
    if |p| <= |s| && s[..|p|] == p {
      assert OccursAt(s, p, 0);
    } else if |s| > 0 {
      ContainsIffOccurs(s[1..], p);
      if exists i :: OccursAt(s[1..], p, i) {
        var i :| OccursAt(s[1..], p, i);
        assert s[1..][i..i + |p|] == s[i + 1..i + 1 + |p|];
        assert OccursAt(s, p, i + 1);
      }
      if exists i :: OccursAt(s, p, i) {
        var i :| OccursAt(s, p, i);
        assert i != 0;
        assert s[1..][i - 1..i - 1 + |p|] == s[i..i + |p|];
        assert OccursAt(s[1..], p, i - 1);
      }
    }
  }

  /** How one diagnostic line is counted. */
  datatype Diagnostic = Warning | Error | Other

  /** A line counts only if it mentions the program; "warning:" is looked
      for before "error:", so a line is never counted twice. */
  function ClassifyLine(line: string, name: string): (d: Diagnostic)
    ensures d != Other ==> Contains(line, name)
    ensures d == Warning <==> Contains(line, name) && Contains(line, "warning:")
    ensures d == Error <==> Contains(line, name) && !Contains(line, "warning:") && Contains(line, "error:")
  {
    if !Contains(line, name) then Other
    else if Contains(line, "warning:") then Warning
    else if Contains(line, "error:") then Error
    else Other
  }

  /** Number of lines classified as `kind`. */
  function CountOf(lines: seq<string>, name: string, kind: Diagnostic): (n: nat)
    ensures n <= |lines|
  {
    if |lines| == 0 then 0
    else CountOf(lines[..|lines| - 1], name, kind)
         + (if ClassifyLine(lines[|lines| - 1], name) == kind then 1 else 0)
  }

  /** The `while (fgets(...))` loop over the diagnostic file. */
  method ScanDiagnostics(lines: seq<string>, name: string) returns (warnings: nat, errors: nat)
    ensures warnings == CountOf(lines, name, Warning)
    ensures errors == CountOf(lines, name, Error)
  {
    warnings, errors := 0, 0;
    var i := 0;
    while i < |lines|
      invariant 0 <= i <= |lines|
      invariant warnings == CountOf(lines[..i], name, Warning)
      invariant errors == CountOf(lines[..i], name, Error)
    {
      var line := lines[i];
      if Contains(line, name) {
        if Contains(line, "warning:") {
          warnings := warnings + 1;
        } else {
          if Contains(line, "error:") {
            errors := errors + 1;
          }
        }
      }
      assert lines[..i + 1][..i] == lines[..i];
      i := i + 1;
    }
    assert lines[..i] == lines;
  }

  /** Every line is counted as exactly one of warning, error or neither. */
  lemma {:induction false} CountsPartitionLines(lines: seq<string>, name: string)
    ensures CountOf(lines, name, Warning) + CountOf(lines, name, Error) + CountOf(lines, name, Other) == |lines|
  {
    if |lines| > 0 {
      CountsPartitionLines(lines[..|lines| - 1], name);
    }
  }

  /** Lines that do not mention the program are never counted. */
  lemma {:induction false} UnattributedLinesIgnored(lines: seq<string>, name: string)
    requires forall i :: 0 <= i < |lines| ==> !Contains(lines[i], name)
    ensures CountOf(lines, name, Warning) == 0 && CountOf(lines, name, Error) == 0
  {
    if |lines| > 0 {
      UnattributedLinesIgnored(lines[..|lines| - 1], name);
    }
  }

  /** Inserting a line that does not mention the program anywhere in the
      file changes neither count. */
  lemma {:induction false} UnattributedLineIgnored(before: seq<string>, line: string, after: seq<string>,
                                                   name: string, kind: Diagnostic)
    requires !Contains(line, name) && kind != Other
    ensures CountOf(before + [line] + after, name, kind) == CountOf(before + after, name, kind)
    decreases |after|
  {
    if |after| == 0 {
      assert before + [line] + after == before + [line];
      assert (before + [line])[..|before|] == before;
      assert before + after == before;
    } else {
      var last := |after| - 1;
      UnattributedLineIgnored(before, line, after[..last], name, kind);
      assert (before + [line] + after)[..|before| + 1 + last] == before + [line] + after[..last];
      assert (before + after)[..|before| + last] == before + after[..last];
    }
  }

  /** A line that mentions the program and both markers adds one warning and
      no error. */
  lemma WarningTakesPrecedence(lines: seq<string>, name: string, line: string)
    requires Contains(line, name) && Contains(line, "warning:") && Contains(line, "error:")
    ensures CountOf(lines + [line], name, Warning) == CountOf(lines, name, Warning) + 1
    ensures CountOf(lines + [line], name, Error) == CountOf(lines, name, Error)
  {
    assert (lines + [line])[..|lines|] == lines;
  }

  // ---------------------------------------------------------------------------
  // Compilation sub-score
  // ---------------------------------------------------------------------------

  /** Five points off per warning, with no floor; any error makes it -100. */
  function CompilationScore(warnings: nat, errors: nat): (r: int)
    ensures r <= 0
    ensures errors > 0 ==> r == -100
    ensures errors == 0 ==> r + 5 * warnings == 0
  {
    if errors > 0 then -100 else -5 * warnings
  }

  /** The deduction loop followed by the error override. */
  method CompilationSubscore(warnings: nat, errors: nat) returns (compilation: int)
    ensures compilation == CompilationScore(warnings, errors)
  {
    compilation := 0;
    for i := 0 to warnings
      invariant compilation == -5 * i
    {
      compilation := compilation - 5;
    }
    if errors > 0 {
      compilation := -100;
    }
  }

  /** There is no floor on the deduction: more than twenty warnings cost more
      than an error does. */
  lemma NoWarningFloor(warnings: nat)
    requires warnings > 20
    ensures CompilationScore(warnings, 0) < CompilationScore(0, 1)
  {
  }

  // ---------------------------------------------------------------------------
  // The argument vector
  // ---------------------------------------------------------------------------

  /** The delimiters given to strtok. */
  predicate IsDelimiter(ch: char)
  {
    ch == ' ' || ch == '\n'
  }

  /** A token: non-empty, without delimiters. */
  predicate IsToken(t: string)
  {
    |t| > 0 && forall k :: 0 <= k < |t| ==> !IsDelimiter(t[k])
  }

  /** The C string held by a buffer: everything before the first NUL. */
  function CString(s: string): (r: string)
    ensures |r| <= |s| && r == s[..|r|]
    ensures forall k :: 0 <= k < |r| ==> r[k] != '\0'
    ensures |r| < |s| ==> s[|r|] == '\0'
  {
    if |s| == 0 || s[0] == '\0' then "" else [s[0]] + CString(s[1..])
  }

  /** The text strtok scans: what one read of the fixture puts into
      `args_buffer`, read as a C string. */
  function ArgsText(fixture: string): string
  {
    CString(fixture[..Diff.Min(|fixture|, ArgsBufferSize)])
  }

  /** Length of the run of non-delimiters at the front of `s`. */
  function RunLength(s: string): (n: nat)
    ensures n <= |s|
    ensures forall k :: 0 <= k < n ==> !IsDelimiter(s[k])
    ensures n < |s| ==> IsDelimiter(s[n])
  {
    if |s| == 0 || IsDelimiter(s[0]) then 0 else 1 + RunLength(s[1..])
  }

  /** The tokens strtok returns, in order: the maximal runs of
      non-delimiters. */
  function Tokens(s: string): (ts: seq<string>)
    ensures forall k :: 0 <= k < |ts| ==> IsToken(ts[k])
    decreases |s|
  {
    if |s| == 0 then []
    else if IsDelimiter(s[0]) then Tokens(s[1..])
    else
      var n := RunLength(s);
      [s[..n]] + Tokens(s[n..])
  }

  /** The tokens joined by single spaces. */
  function Join(ts: seq<string>): string
  {
    if |ts| == 0 then ""
    else if |ts| == 1 then ts[0]
    else ts[0] + " " + Join(ts[1..])
  }

  /** A token followed by a delimiter (or nothing) is one run. */
  lemma TokenThenRest(t: string, rest: string)
    requires IsToken(t)
    requires |rest| == 0 || IsDelimiter(rest[0])
    ensures Tokens(t + rest) == [t] + Tokens(rest)
  {
    var s := t + rest;
    RunLengthIs(s, |t|);
    assert s[..|t|] == t && s[|t|..] == rest;
  }

  /** Splitting undoes joining: a fixture written as tokens separated by
      single spaces yields exactly those tokens. */
  lemma {:induction false} TokensOfJoin(ts: seq<string>)
    requires forall k :: 0 <= k < |ts| ==> IsToken(ts[k])
    ensures Tokens(Join(ts)) == ts
  {
    if |ts| == 1 {
      TokenThenRest(ts[0], "");
      assert ts[0] + "" == ts[0];
    } else if |ts| > 1 {
      var rest := " " + Join(ts[1..]);
      TokenThenRest(ts[0], rest);
      assert ts[0] + " " + Join(ts[1..]) == ts[0] + rest;
      assert rest[1..] == Join(ts[1..]);
      TokensOfJoin(ts[1..]);
    }
  }

  /** At most one token per two characters, so `arguments[10000]` holds
      every token of a 10000-character buffer with room for `argv[0]` and
      the NULL terminator. */
  lemma {:induction false} TokenCountBound(s: string)
    ensures 2 * |Tokens(s)| <= |s| + 1
    decreases |s|
  {
    if |s| > 0 {
      if IsDelimiter(s[0]) {
        TokenCountBound(s[1..]);
      } else {
        var n := RunLength(s);
        if n < |s| {
          TokenCountBound(s[n + 1..]);
          assert Tokens(s[n..]) == Tokens(s[n + 1..]);
        }
      }
    }
  }

  /** RunLength is the first delimiter's offset (or the whole length). */
  lemma RunLengthIs(s: string, n: nat)
    requires n <= |s|
    requires forall k :: 0 <= k < n ==> !IsDelimiter(s[k])
    requires n == |s| || IsDelimiter(s[n])
    ensures RunLength(s) == n
  {
  }

  /** A leading delimiter is skipped. */
  lemma SkipDelimiter(text: string, i: nat)
    requires i < |text| && IsDelimiter(text[i])
    ensures Tokens(text[i..]) == Tokens(text[i + 1..])
  {
    assert text[i..][1..] == text[i + 1..];
  }

  /** A run of delimiters is skipped. */
  lemma {:induction false} SkipDelimiters(text: string, from: nat, to: nat)
    requires from <= to <= |text|
    requires forall k :: from <= k < to ==> IsDelimiter(text[k])
    ensures Tokens(text[from..]) == Tokens(text[to..])
  {
    if from < to {
      SkipDelimiters(text, from, to - 1);
      SkipDelimiter(text, to - 1);
    }
  }

  /** A run from `start` up to a delimiter (or the end) is the next token. */
  lemma TokenAt(text: string, start: nat, end: nat)
    requires start < end <= |text|
    requires forall k :: start <= k < end ==> !IsDelimiter(text[k])
    requires end == |text| || IsDelimiter(text[end])
    ensures Tokens(text[start..]) == [text[start..end]] + Tokens(text[end..])
  {
    var s := text[start..];
    RunLengthIs(s, end - start);
    assert s[..end - start] == text[start..end] && s[end - start..] == text[end..];
  }

  /** What one strtok call finds from `pos`: delimiters up to `start`, then
      a token up to `end`, after which the next call resumes at `next`. */
  lemma {:induction false} StrtokStep(text: string, pos: nat, start: nat, end: nat, next: nat)
    requires pos <= start < end <= |text|
    requires forall k :: pos <= k < start ==> IsDelimiter(text[k])
    requires forall k :: start <= k < end ==> !IsDelimiter(text[k])
    requires end == |text| || IsDelimiter(text[end])
    requires next == if end < |text| then end + 1 else end
    ensures Tokens(text[pos..]) == [text[start..end]] + Tokens(text[next..])
  {
    SkipDelimiters(text, pos, start);
    TokenAt(text, start, end);
    if end < |text| {
      SkipDelimiter(text, end);
    }
  }

  /** One `strtok` call resuming at `pos`: skips delimiters, then takes the
      run up to the next delimiter (which strtok overwrites with NUL, so the
      next call resumes after it). */
  method Strtok(text: string, pos: nat) returns (token: Option<string>, next: nat)
    requires pos <= |text|
    ensures pos <= next <= |text|
    ensures token.None? ==> Tokens(text[pos..]) == [] && next == |text|
    ensures token.Some? ==> next > pos && Tokens(text[pos..]) == [token.value] + Tokens(text[next..])
  {
    var start := pos;
    while start < |text| && IsDelimiter(text[start])
      invariant pos <= start <= |text|
      invariant forall k :: pos <= k < start ==> IsDelimiter(text[k])
    {
      start := start + 1;
    }
    if start == |text| {
      SkipDelimiters(text, pos, start);
      assert text[start..] == [];
      return None, |text|;
    }
    var end := start;
    while end < |text| && !IsDelimiter(text[end])
      invariant start <= end <= |text|
      invariant forall k :: start <= k < end ==> !IsDelimiter(text[k])
    {
      end := end + 1;
    }
    next := if end < |text| then end + 1 else end;
    StrtokStep(text, pos, start, end, next);
    token := Some(text[start..end]);
  }

  /** The argument vector the program is run with: its own path, then the
      fixture's tokens (the NULL terminator is the end of the sequence). */
  function ArgumentVector(execPath: string, fixture: string): seq<string>
  {
    [execPath] + Tokens(ArgsText(fixture))
  }

  /** The strtok loop filling `arguments`. */
  method SplitArguments(execPath: string, fixture: string) returns (arguments: seq<string>)
    ensures arguments == ArgumentVector(execPath, fixture)
  {
    var text := ArgsText(fixture);
    arguments := [execPath];
    var token, next := Strtok(text, 0);
    assert text[0..] == text;
    while token.Some?
      invariant next <= |text|
      invariant token.None? ==> next == |text|
      invariant arguments + (if token.Some? then [token.value] else []) + Tokens(text[next..])
                == [execPath] + Tokens(text)
      decreases |text| - next + (if token.Some? then 1 else 0)
    {
      arguments := arguments + [token.value];
      token, next := Strtok(text, next);
    }
    assert text[next..] == [];
    assert arguments + [] + [] == arguments;
  }

  /** The argument vector starts with the path and has one entry per token,
      every entry after the first being a token. */
  lemma ArgumentVectorShape(execPath: string, fixture: string)
    ensures |ArgumentVector(execPath, fixture)| == 1 + |Tokens(ArgsText(fixture))|
    ensures ArgumentVector(execPath, fixture)[0] == execPath
    ensures forall k :: 1 <= k < |ArgumentVector(execPath, fixture)| ==> IsToken(ArgumentVector(execPath, fixture)[k])
    ensures |ArgumentVector(execPath, fixture)| < ArgsBufferSize
  {
    TokenCountBound(ArgsText(fixture));
  }

  // ---------------------------------------------------------------------------
  // How the tested program ended, and the comparator's result
  // ---------------------------------------------------------------------------

  /** The termination and memory-access sub-scores. */
  datatype RunVerdict = RunVerdict(termination: int, memory: int)

  /** Signals counted as memory-access faults. */
  predicate IsMemoryFault(sig: bv32)
  {
    sig == SIGSEGV || sig == SIGABRT || sig == SIGBUS
  }

  /** Classification of the tested program's wait status. An exit status of
      255 is taken as a failure to start the program; a memory fault costs 15
      points; the deadline's SIGKILL costs 100; anything else costs nothing. */
  function ClassifyRun(status: Status): (r: Step<RunVerdict>)
    ensures r.Abort? <==> ExitStatus(status) == 255
    ensures r.Ok? ==> (r.value.memory == -15 <==> IfSignaled(status) && IsMemoryFault(TermSig(status)))
    ensures r.Ok? ==> (r.value.termination == -100 <==> IfSignaled(status) && TermSig(status) == SIGKILL)
    ensures r.Ok? ==> (r.value.memory == 0 || r.value.memory == -15)
    ensures r.Ok? ==> (r.value.termination == 0 || r.value.termination == -100)
    ensures r.Ok? ==> !(r.value.memory == -15 && r.value.termination == -100)
  {
    if ExitStatus(status) == 255 then Abort
    else if IfSignaled(status) then
      var sig := TermSig(status);
      Ok(RunVerdict(if sig == SIGKILL then -100 else 0, if IsMemoryFault(sig) then -15 else 0))
    else Ok(RunVerdict(0, 0))
  }

  /** The four kinds of ending, stated on the statuses the kernel reports. */
  lemma RunEndings(code: bv8, sig: bv32, core: bool)
    requires 0 < sig < 0x7f
    ensures code != 255 ==> ClassifyRun(Exited(code)) == Ok(RunVerdict(0, 0))
    ensures ClassifyRun(Exited(255)) == Abort
    ensures ClassifyRun(KilledBy(SIGKILL, core)) == Ok(RunVerdict(-100, 0))
    ensures IsMemoryFault(sig) ==> ClassifyRun(KilledBy(sig, core)) == Ok(RunVerdict(0, -15))
    ensures sig != SIGKILL && !IsMemoryFault(sig) ==> ClassifyRun(KilledBy(sig, core)) == Ok(RunVerdict(0, 0))
    ensures ClassifyRun(Unfilled) == Abort
  {
  }

  /** The output sub-score is the comparator's exit status; 255 means the
      comparator failed. */
  function IntakeOutput(status: Status): (r: Step<int>)
    ensures r.Abort? <==> ExitStatus(status) == 255
    ensures r.Ok? ==> r.value == ExitStatus(status) as int && 0 <= r.value < 255
  {
    var code := ExitStatus(status);
    if code == 255 then Abort else Ok(code as int)
  }

  /** A comparator that exits with any code but 255 hands exactly that code
      to the grade. */
  lemma IntakeOfExit(code: bv8)
    requires code != 255
    ensures IntakeOutput(Exited(code)) == Ok(code as int)
  {
    assert ExitStatus(Exited(code)) == code as bv32;
    assert (code as bv32) as int == code as int;
  }

  /** In particular a comparator that exits with a percentage hands exactly
      that percentage to the grade. */
  lemma IntakeOfPercentage(percentage: nat)
    requires percentage <= 100
    ensures IntakeOutput(Exited(percentage as bv8)) == Ok(percentage)
  {
    IntakeOfExit(percentage as bv8);
  }

  // ---------------------------------------------------------------------------
  // The final score and the whole autograder run
  // ---------------------------------------------------------------------------

  /** `max(0, sum)` of the four sub-scores. */
  function Score(compilation: int, termination: int, output: int, memory: int): (s: int)
    ensures s >= 0 && s >= compilation + termination + output + memory
    ensures s == 0 || s == compilation + termination + output + memory
  {
    var sum := compilation + termination + output + memory;
    if sum < 0 then 0 else sum
  }

  /** With the natural bounds of the sub-scores the score is in [0, 100]. */
  lemma ScoreWithinRange(compilation: int, termination: int, output: int, memory: int)
    requires compilation <= 0 && termination <= 0 && memory <= 0 && 0 <= output <= 100
    ensures 0 <= Score(compilation, termination, output, memory) <= 100
  {
  }

  /** The grade as reported. */
  datatype Report = Report(compilation: int, termination: int, output: int, memory: int, score: int)

  /** What one autograder run sees from the outside world: the source name, the
      compiler's wait status, the lines of the diagnostic file (None when it
      cannot be opened or closed), the arguments fixture (None when it cannot
      be opened, read or closed), and the wait statuses of the tested program
      and of the comparator. */
  datatype Request = Request(
    source: string,
    compileStatus: Status,
    diagnostics: Option<seq<string>>,
    argsFixture: Option<string>,
    runStatus: Status,
    compareStatus: Status)

  /** The program is run and compared only when compilation produced no
      errors and the arguments fixture was read. */
  predicate Launches(req: Request)
    requires |req.source| >= 2
  {
    ExitStatus(req.compileStatus) != 255
    && req.diagnostics.Some?
    && CountOf(req.diagnostics.value, ProgramName(req.source), Error) == 0
    && req.argsFixture.Some?
  }

  /** The scoring rules of `main`, in order. */
  function Grade(req: Request): (g: Step<Report>)
    requires |req.source| >= 2
    ensures g.Ok? ==> g.value.score == Score(g.value.compilation, g.value.termination, g.value.output, g.value.memory)
    ensures g.Ok? ==> g.value.compilation <= 0 && 0 <= g.value.output < 255
    ensures g.Ok? ==> (g.value.termination == 0 || g.value.termination == -100)
    ensures g.Ok? ==> (g.value.memory == 0 || g.value.memory == -15)
    ensures g.Ok? && !Launches(req) ==> g.value.termination == 0 && g.value.output == 0 && g.value.memory == 0
  {
    var name := ProgramName(req.source);
    if ExitStatus(req.compileStatus) == 255 || req.diagnostics.None? then Abort
    else
      var lines := req.diagnostics.value;
      var compilation := CompilationScore(CountOf(lines, name, Warning), CountOf(lines, name, Error));
      if CountOf(lines, name, Error) > 0 then Ok(Report(compilation, 0, 0, 0, Score(compilation, 0, 0, 0)))
      else if req.argsFixture.None? then Abort
      else match ClassifyRun(req.runStatus)
        case Abort => Abort
        case Ok(verdict) =>
          match IntakeOutput(req.compareStatus)
          case Abort => Abort
          case Ok(output) =>
            Ok(Report(compilation, verdict.termination, output, verdict.memory,
                      Score(compilation, verdict.termination, output, verdict.memory)))
  }

  /** `main` without its process plumbing: returns the report (or Abort for
      exit status 255) and the argument vector the program is launched with
      (empty when it is not launched). */
  method Autograde(req: Request) returns (outcome: Step<Report>, argv: seq<string>)
    requires |req.source| >= 2
    ensures outcome == Grade(req)
    ensures argv == if Launches(req) then ArgumentVector(ExecPath(ProgramName(req.source)), req.argsFixture.value) else []
  {
    var name := ProgramName(req.source);
    var execPath := ExecPath(name);
    argv := [];
    if ExitStatus(req.compileStatus) == 255 {
      return Abort, argv;
    }
    if req.diagnostics.None? {
      return Abort, argv;
    }
    var warnings, errors := ScanDiagnostics(req.diagnostics.value, name);
    var compilation := CompilationSubscore(warnings, errors);
    var termination, output, memory := 0, 0, 0;
    if errors == 0 {
      if req.argsFixture.None? {
        return Abort, argv;
      }
      argv := SplitArguments(execPath, req.argsFixture.value);
      var verdict := ClassifyRun(req.runStatus);
      if verdict.Abort? {
        return Abort, argv;
      }
      termination, memory := verdict.value.termination, verdict.value.memory;
      var percentage := IntakeOutput(req.compareStatus);
      if percentage.Abort? {
        return Abort, argv;
      }
      output := percentage.value;
    }
    var score := Score(compilation, termination, output, memory);
    outcome := Ok(Report(compilation, termination, output, memory, score));
  }

  // ---------------------------------------------------------------------------
  // Properties of the whole run
  // ---------------------------------------------------------------------------

  /** Any compile error: compilation is -100, the other sub-scores stay 0,
      the score is 0, and nothing about running or comparing matters. */
  lemma CompileErrorsSkipExecution(req: Request, argsFixture: Option<string>, runStatus: Status, compareStatus: Status)
    requires |req.source| >= 2
    requires ExitStatus(req.compileStatus) != 255 && req.diagnostics.Some?
    requires CountOf(req.diagnostics.value, ProgramName(req.source), Error) > 0
    ensures Grade(req) == Ok(Report(-100, 0, 0, 0, 0))
    ensures !Launches(req)
    ensures Grade(req.(argsFixture := argsFixture, runStatus := runStatus, compareStatus := compareStatus)) == Grade(req)
  {
  }

  /** The run aborts with 255 exactly on an infrastructure failure. */
  lemma AbortsExactlyOnInfrastructureFailure(req: Request)
    requires |req.source| >= 2
    ensures Grade(req).Abort? <==>
      ExitStatus(req.compileStatus) == 255 || req.diagnostics.None? ||
      (CountOf(req.diagnostics.value, ProgramName(req.source), Error) == 0 &&
       (req.argsFixture.None? || ExitStatus(req.runStatus) == 255 || ExitStatus(req.compareStatus) == 255))
  {
  }

  /** When the comparator exits with its percentage, the report carries that
      percentage as output and its score lies in [0, 100]. */
  lemma GradeOfComparison(req: Request, u: seq<bv8>, c: seq<bv8>)
    requires |req.source| >= 2
    requires req.compareStatus == Exited(Diff.Percentage(u, c) as bv8)
    ensures Grade(req).Ok? ==> 0 <= Grade(req).value.score <= 100
    ensures Grade(req).Ok? && Launches(req) ==> Grade(req).value.output == Diff.Percentage(u, c)
    ensures Grade(req).Ok? ==>
              Grade(req).value.score == Score(Grade(req).value.compilation, Grade(req).value.termination,
                                              Grade(req).value.output, Grade(req).value.memory)
  {
    IntakeOfPercentage(Diff.Percentage(u, c));
    if Grade(req).Ok? {
      var r := Grade(req).value;
      ScoreWithinRange(r.compilation, r.termination, r.output, r.memory);
    }
  }

  /** A clean compile, a normal exit and byte-identical output earn 100. */
  lemma PerfectSubmission(req: Request, out: seq<bv8>)
    requires |req.source| >= 2 && req.argsFixture.Some?
    requires req.compileStatus == Exited(0) && req.diagnostics.Some?
    requires CountOf(req.diagnostics.value, ProgramName(req.source), Warning) == 0
    requires CountOf(req.diagnostics.value, ProgramName(req.source), Error) == 0
    requires req.runStatus == Exited(0)
    requires req.compareStatus == Exited(Diff.Percentage(out, out) as bv8)
    ensures Grade(req) == Ok(Report(0, 0, 100, 0, 100))
  {
    Diff.PercentageFullIffIdentical(out, out);
    IntakeOfPercentage(100);
  }

  /** Running past the deadline costs 100 points, which no output can make
      up for. */
  lemma DeadlineKillScoresZero(req: Request, core: bool)
    requires |req.source| >= 2
    requires req.runStatus == KilledBy(SIGKILL, core)
    requires ExitStatus(req.compareStatus) <= 100
    requires Grade(req).Ok?
    ensures Grade(req).value.score == 0
  {
  }

  /** A memory fault costs 15 points on top of whatever output was produced. */
  lemma MemoryFaultCostsFifteen(req: Request, sig: bv32, core: bool)
    requires |req.source| >= 2 && IsMemoryFault(sig)
    requires req.runStatus == KilledBy(sig, core)
    requires Launches(req) && CountOf(req.diagnostics.value, ProgramName(req.source), Warning) == 0
    requires ExitStatus(req.compareStatus) <= 100
    ensures Grade(req) == Ok(Report(0, 0, ExitStatus(req.compareStatus) as int, -15,
                                    Score(0, 0, ExitStatus(req.compareStatus) as int, -15)))
  {
  }
}
