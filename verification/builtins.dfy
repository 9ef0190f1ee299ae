/**
 * What a shell iteration decides to do with a parsed line.
 *
 * A single-stage line is checked against the builtins (`exit`, `cd`, and
 * depending on the iteration `jobs`, `fg`, `bg`); anything else is run as
 * `/bin/<command>`. A piped line is handed to the pipeline code. Only the
 * decision is modelled: `chdir`, `fork`, `execvp` and the waits are effects
 * the caller performs.
 */
module Builtins {
  import opened Wrappers
  import opened Jobs
  import opened Parser

  /** The iterations that split the whole line on single spaces with `strsep`. */
  datatype WordsDialect = Wsh2 | Wsh3

  /** The decision taken for one line. */
  datatype Action =
    | Exit(status: int)
      /** Change directory to dir; None is a call with a NULL argument. */
    | ChangeDir(dir: Option<string>)
      /** "Usage: <builtin> ..." on stderr and nothing else. */
    | Usage(builtin: string)
      /** Print the background table. */
    | ListJobs
      /** wsh6 `fg <id>`: the id is accepted and nothing else happens. */
    | ForegroundJob(arg: string)
      /** wshX `bg`: the body is empty. */
    | BackgroundJob
    | NoAction
      /** Fork and execute path with argument vector argv; wait for the child when `wait` holds. */
    | Run(path: string, argv: seq<string>, wait: bool)
      /** Fork one child per stage, wired by pipes, then wait `waits` times. */
    | Pipeline(stages: nat, waits: nat)

  /** The directory every iteration prefixes to a command name. */
  const BinPath: string := "/bin"

  /**
   * The executable path: the directory, a slash and the command, formatted
   * into a buffer of MAX_INPUT_SIZE and so cut to MAX_INPUT_SIZE - 1
   * characters.
   */
  function ExecPath(cmd: string): (p: string)
    ensures |p| == Min(|BinPath| + 1 + |cmd|, MaxInputSize - 1)
    ensures p == (BinPath + "/" + cmd)[..|p|]
  {
    var full := BinPath + "/" + cmd;
    if |full| < MaxInputSize then full else full[..MaxInputSize - 1]
  }

  /** Whether the argument vector has an entry k; it is NULL-terminated after its last entry. */
  predicate HasArg(p: Process, k: nat)
  {
    k < |p.args|
  }

  /** Argument k of the vector, or None past its end. */
  function ArgAt(p: Process, k: nat): Option<string>
  {
    if k < |p.args| then Some(p.args[k]) else None
  }

  /** wsh6's single-stage branch. */
  function SingleWsh6(p: Process, background: bool): Action
  {
    if p.command == "exit" then Exit(0)
    else if p.command == "cd" then
      (if HasArg(p, 1) then ChangeDir(Some(p.args[1])) else Usage("cd"))
    else if p.command == "jobs" then ListJobs
    else if p.command == "fg" then
      (if HasArg(p, 1) then ForegroundJob(p.args[1]) else Usage("fg"))
    else Run(ExecPath(p.command), p.args, !background)
  }

  /** The single-stage branch of wsh5, wsh7 and wshX (only wshX knows `bg`). */
  function SingleUpToOne(p: Process, d: Dialect): Action
  {
    if p.command == "exit" then Exit(0)
    else if p.command == "cd" then
      (if HasArg(p, 2) then Usage("cd") else ChangeDir(ArgAt(p, 1)))
    else if p.command == "bg" && d == WshX then
      (if HasArg(p, 2) then Usage("bg") else BackgroundJob)
    else Run(ExecPath(p.command), p.args, true)
  }

  /** wsh4's single-stage branch: `args` does not hold the command, and the child is not waited for. */
  function SingleWsh4(p: Process): Action
  {
    if p.command == "exit" then Exit(0)
    else if p.command == "cd" then
      (if HasArg(p, 1) then Usage("cd") else ChangeDir(ArgAt(p, 0)))
    else Run(ExecPath(p.command), p.args, false)
  }

  /**
   * The decision of the pipeline iterations for a parsed job. wsh1 stops
   * after parsing; wsh4's piping branch is empty; wsh6 waits for a piped
   * job only in the foreground, the others always wait once per stage.
   */
  function Dispatch(j: Job, d: Dialect): (a: Action)
    requires |j.processes| >= 1
    ensures d == Wsh1 ==> a == NoAction
    ensures a.Exit? ==> a.status == 0 && !j.pipingFlag && j.processes[0].command == "exit"
    ensures a.ChangeDir? ==> !j.pipingFlag && j.processes[0].command == "cd"
    ensures a.Usage? ==> !j.pipingFlag && a.builtin == j.processes[0].command && Builtin(a.builtin, d)
    ensures a.Run? ==> && !j.pipingFlag && !Builtin(j.processes[0].command, d)
                       && a.path == ExecPath(j.processes[0].command) && a.argv == j.processes[0].args
    ensures a.Pipeline? ==> j.pipingFlag && a.stages == |j.processes| && a.waits <= a.stages
  {
    var n := |j.processes|;
    var p := j.processes[0];
    match d
    case Wsh1 => NoAction
    case Wsh4 => if j.pipingFlag then NoAction else SingleWsh4(p)
    case Wsh6 => if j.pipingFlag then Pipeline(n, if j.background then 0 else n) else SingleWsh6(p, j.background)
    case _ => if j.pipingFlag then Pipeline(n, n) else SingleUpToOne(p, d)
  }

  /** wsh2 and wsh3 on the `strsep` fields of the line (only wsh2 knows `jobs`). */
  function DispatchWords(args: seq<string>, w: WordsDialect): (a: Action)
    requires |args| >= 1
    ensures a.Exit? <==> args[0] == "exit"
    ensures a.Exit? ==> a.status == 0
    ensures a.ChangeDir? ==> args[0] == "cd" && |args| == 2 && a.dir == Some(args[1])
    ensures a.Usage? ==> a == Usage("cd") && args[0] == "cd" && |args| != 2
    ensures a.NoAction? <==> w == Wsh2 && args[0] == "jobs"
    ensures a.Run? ==> a.path == ExecPath(args[0]) && a.argv == args && a.wait
    ensures a.Exit? || a.ChangeDir? || a.Usage? || a.NoAction? || a.Run?
  {
    if args[0] == "exit" then Exit(0)
    else if args[0] == "cd" then
      (if |args| != 2 then Usage("cd") else ChangeDir(Some(args[1])))
    else if args[0] == "jobs" && w == Wsh2 then NoAction
    else Run(ExecPath(args[0]), args, true)
  }

  // ---------------------------------------------------------------------
  // What the iterations promise
  // ---------------------------------------------------------------------

  /** A stage as the parser builds it: in every iteration but wsh4, `args[0]` is the command. */
  predicate WellFormed(p: Process, d: Dialect)
  {
    CommandInArgs(d) ==> |p.args| >= 1 && p.args[0] == p.command
  }

  /** The operands of a stage: its arguments after the command. */
  function Operands(p: Process, d: Dialect): seq<string>
    requires WellFormed(p, d)
  {
    if CommandInArgs(d) then p.args[1..] else p.args
  }

  /** The operand counts each iteration's `cd` accepts. */
  predicate CdAccepts(d: Dialect, operands: nat)
  {
    match d
    case Wsh6 => operands >= 1
    case _ => operands <= 1
  }

  /** A single-stage job whose command is c. */
  predicate SingleCommand(j: Job, c: string)
  {
    |j.processes| >= 1 && !j.pipingFlag && j.processes[0].command == c
  }

  /**
   * `cd` is a usage error exactly when the operand count is outside what
   * the iteration accepts: wsh6 wants at least one (a second vector entry),
   * wsh5, wsh7 and wshX at most one (a third entry rejects), wsh4 at most
   * one too (a second entry rejects, its vector lacking the command).
   * Otherwise the directory is the first operand, or NULL when there is none.
   */
  lemma CdUsage(j: Job, d: Dialect)
    requires d != Wsh1 && SingleCommand(j, "cd") && WellFormed(j.processes[0], d)
    ensures var ops := Operands(j.processes[0], d);
            var a := Dispatch(j, d);
            && (a == Usage("cd") <==> !CdAccepts(d, |ops|))
            && (CdAccepts(d, |ops|) ==> a == ChangeDir(if |ops| >= 1 then Some(ops[0]) else None))
  {
    var p := j.processes[0];
    if CommandInArgs(d) {
      assert forall k :: 1 <= k < |p.args| ==> p.args[k] == Operands(p, d)[k - 1];
    }
  }

  /** wsh2 and wsh3: `cd` is a usage error exactly when `arg_count != 2`. */
  lemma WordsCdUsage(args: seq<string>, w: WordsDialect)
    requires |args| >= 1 && args[0] == "cd"
    ensures DispatchWords(args, w) == Usage("cd") <==> |args| - 1 != 1
    ensures |args| == 2 ==> DispatchWords(args, w) == ChangeDir(Some(args[1]))
  {
  }

  /**
   * Every iteration that acts on a line agrees on `cd` with exactly one
   * operand: it changes to that directory.
   */
  lemma CdOneOperandAgrees(j: Job, d: Dialect, dir: string)
    requires d != Wsh1 && SingleCommand(j, "cd") && WellFormed(j.processes[0], d)
    requires Operands(j.processes[0], d) == [dir]
    ensures Dispatch(j, d) == ChangeDir(Some(dir))
    ensures DispatchWords(["cd", dir], Wsh2) == ChangeDir(Some(dir))
    ensures DispatchWords(["cd", dir], Wsh3) == ChangeDir(Some(dir))
  {
    CdUsage(j, d);
  }

  /**
   * wsh2 and wsh3 keep the empty fields `strsep` produces, so a doubled
   * space makes `cd` a usage error although the line names one directory.
   */
  lemma WordsDoubleSpaceCd(dir: string, w: WordsDialect)
    requires Text.Free(dir, ' ')
    ensures DispatchWords(Text.Fields("cd " + dir, ' '), w) == ChangeDir(Some(dir))
    ensures DispatchWords(Text.Fields("cd  " + dir, ' '), w) == Usage("cd")
  {
    Text.FieldsOfFree("cd", ' ');
    Text.FieldsOfFree(dir, ' ');
    Text.FieldsOfFree("", ' ');
    assert "cd " + dir == "cd" + [' '] + dir;
    Text.FieldsSplit("cd", ' ', dir);
    assert " " + dir == "" + [' '] + dir;
    Text.FieldsSplit("", ' ', dir);
    assert Text.Fields(" " + dir, ' ') == ["", dir];
    assert "cd  " + dir == "cd" + [' '] + (" " + dir);
    Text.FieldsSplit("cd", ' ', " " + dir);
    assert Text.Fields("cd  " + dir, ' ') == ["cd", "", dir];
  }

  /** `exit` as a single stage terminates with status 0 in every iteration that acts on a line. */
  lemma ExitStatusZero(j: Job, d: Dialect, args: seq<string>, w: WordsDialect)
    requires d != Wsh1 && SingleCommand(j, "exit")
    requires |args| >= 1 && args[0] == "exit"
    ensures Dispatch(j, d) == Exit(0)
    ensures DispatchWords(args, w) == Exit(0)
  {
  }

  /** The names each iteration treats as builtins. */
  predicate Builtin(c: string, d: Dialect)
  {
    c == "exit" || c == "cd"
    || (d == Wsh6 && (c == "jobs" || c == "fg"))
    || (d == WshX && c == "bg")
  }

  /**
   * A single-stage job that is no builtin runs `/bin/<command>` with the
   * stage's argument vector (cut at MAX_INPUT_SIZE - 1 characters), waiting
   * for it except in wsh4 and for a wsh6 background job.
   */
  lemma ExternalCommand(j: Job, d: Dialect)
    requires d != Wsh1 && |j.processes| >= 1 && !j.pipingFlag
    requires !Builtin(j.processes[0].command, d)
    ensures var p := j.processes[0];
            Dispatch(j, d) == Run(ExecPath(p.command), p.args, d != Wsh4 && !(d == Wsh6 && j.background))
    ensures var c := j.processes[0].command;
            |c| < MaxInputSize - |BinPath| - 1 ==> ExecPath(c) == BinPath + "/" + c
  {
  }

  /**
   * A piped job is handed to the pipeline code with one child per stage
   * (except in wsh4, whose piping branch is empty); the shell then waits
   * once per stage, unless it is a wsh6 background job, which is not waited for.
   */
  lemma PipedJob(j: Job, d: Dialect)
    requires d != Wsh1 && d != Wsh4 && |j.processes| >= 1 && j.pipingFlag
    ensures Dispatch(j, d).Pipeline?
    ensures Dispatch(j, d).stages == |j.processes|
    ensures Dispatch(j, d).waits == (if d == Wsh6 && j.background then 0 else |j.processes|)
  {
  }

  /** wsh6 `fg` is a usage error exactly when it has no operand; wshX `bg` exactly when it has more than one. */
  lemma FgBgUsage(j: Job, d: Dialect)
    requires |j.processes| >= 1 && !j.pipingFlag && WellFormed(j.processes[0], d)
    ensures d == Wsh6 && j.processes[0].command == "fg" ==>
              (Dispatch(j, d) == Usage("fg") <==> |Operands(j.processes[0], d)| == 0)
    ensures d == WshX && j.processes[0].command == "bg" ==>
              (Dispatch(j, d) == Usage("bg") <==> |Operands(j.processes[0], d)| >= 2)
  {
  }
}
