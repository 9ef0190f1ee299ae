/**
 * Turning one input line into a Job, as each iteration of the shell does.
 *
 * wsh1, wsh5, wsh6 and wshX split the line on '|' with `strsep`, take each
 * segment's first `strtok` token as the command (and `args[0]`), drop "&"
 * tokens while setting the background flag, cap the stages at 15 and build
 * `job_string`. wsh7 does the same without "&" handling or `job_string`, and
 * caps stages at 10. wsh4 additionally leaves the command out of `args`.
 * wsh2 and wsh3 split the whole line on single spaces with `strsep`.
 */
module Parser {
  import opened Wrappers
  import opened Text
  import opened Jobs

  /** The iterations that parse a pipeline of '|'-separated stages. */
  datatype Dialect = Wsh1 | Wsh4 | Wsh5 | Wsh6 | Wsh7 | WshX

  /** MAX_PROCESSES of the iteration. */
  function MaxProcesses(d: Dialect): nat
  {
    if d == Wsh4 || d == Wsh7 then 10 else 15
  }

  /** Whether "&" tokens are dropped and set `background`. */
  predicate AmpAware(d: Dialect)
  {
    !(d == Wsh4 || d == Wsh7)
  }

  /** Whether `args[0]` is the command itself (every iteration except wsh4). */
  predicate CommandInArgs(d: Dialect)
  {
    d != Wsh4
  }

  /** Whether the iteration's Job has a `job_string` (and a `background` flag). */
  predicate BuildsJobString(d: Dialect)
  {
    !(d == Wsh4 || d == Wsh7)
  }

  /** The tokens left after removing every "&". */
  function DropAmp(ts: seq<string>): (r: seq<string>)
    ensures forall i :: 0 <= i < |r| ==> r[i] != "&"
  {
    if ts == [] then [] else (if ts[0] == "&" then [] else [ts[0]]) + DropAmp(ts[1..])
  }

  /** The tokens that can become arguments. */
  function Kept(ts: seq<string>, ampAware: bool): seq<string>
  {
    if ampAware then DropAmp(ts) else ts
  }

  function Min(a: int, b: int): int
  {
    if a <= b then a else b
  }

  /** What the argument loop collects from the later tokens, and whether it met an "&". */
  datatype ArgScan = ArgScan(args: seq<string>, amp: bool)

  /**
   * The argument loop over the tokens after the command; room is how many
   * more arguments fit before `arg_count` reaches MAX_INPUT_SIZE - 2. An "&"
   * (when ampAware) is skipped without using room; once room is exhausted the
   * remaining tokens are never read.
   */
  function ScanArgs(toks: seq<string>, room: nat, ampAware: bool): (r: ArgScan)
    ensures |r.args| <= room && |r.args| <= |toks|
    ensures forall k :: 0 <= k < |r.args| ==> r.args[k] in toks
    ensures ampAware ==> forall k :: 0 <= k < |r.args| ==> r.args[k] != "&"
    ensures r.amp ==> ampAware && "&" in toks
    decreases |toks|
  {
    if room == 0 || toks == [] then ArgScan([], false)
    else if ampAware && toks[0] == "&" then ArgScan(ScanArgs(toks[1..], room, ampAware).args, true)
    else
      var r := ScanArgs(toks[1..], room - 1, ampAware);
      ArgScan([toks[0]] + r.args, r.amp)
  }

  /**
   * The argument loop keeps the first min(room, …) kept tokens in order; it
   * reports "&" only if one was among the tokens, and exactly when one was
   * if everything fitted.
   */
  lemma {:induction false} ScanArgsSpec(toks: seq<string>, room: nat, ampAware: bool)
    ensures var r := ScanArgs(toks, room, ampAware);
            var kept := Kept(toks, ampAware);
            && |r.args| == Min(room, |kept|)
            && r.args == kept[..|r.args|]
            && (r.amp ==> ampAware && "&" in toks)
            && (|kept| < room ==> (r.amp <==> ampAware && "&" in toks))
    decreases |toks|
  {
    if room == 0 || toks == [] {
    } else if ampAware && toks[0] == "&" {
      ScanArgsSpec(toks[1..], room, ampAware);
      assert DropAmp(toks) == DropAmp(toks[1..]);
    } else {
      ScanArgsSpec(toks[1..], room - 1, ampAware);
      assert Kept(toks, ampAware) == [toks[0]] + Kept(toks[1..], ampAware);
      assert "&" in toks[1..] ==> "&" in toks;
      assert toks == [toks[0]] + toks[1..];
    }
  }

  /** One stage as parsed, with whether an "&" was consumed. */
  datatype StageScan = StageScan(proc: Process, amp: bool)

  /** Parses one '|' segment from its `strtok` tokens. */
  function ParseStage(toks: seq<string>, d: Dialect): (r: StageScan)
    requires |toks| >= 1
    ensures r.proc.command == toks[0]
    ensures CommandInArgs(d) ==> |r.proc.args| >= 1 && r.proc.args[0] == toks[0]
    ensures |r.proc.args| <= ArgLimit
    ensures forall k :: 0 <= k < |r.proc.args| ==> r.proc.args[k] in toks
    ensures r.amp ==> AmpAware(d) && "&" in toks[1..]
  {
    if CommandInArgs(d) then
      var s := ScanArgs(toks[1..], ArgLimit - 1, AmpAware(d));
      StageScan(Process(toks[0], [toks[0]] + s.args), s.amp)
    else
      var s := ScanArgs(toks[1..], ArgLimit, false);
      StageScan(Process(toks[0], s.args), false)
  }

  /**
   * The first token is the command; `args` starts with it (except in wsh4,
   * where it holds only later tokens); `arg_count` stays within
   * MAX_INPUT_SIZE - 2; no "&" survives as an argument in the iterations
   * that handle it; and the arguments are the segment's later tokens in order.
   */
  lemma ParseStageSpec(toks: seq<string>, d: Dialect)
    requires |toks| >= 1
    ensures var s := ParseStage(toks, d);
            var rest := if CommandInArgs(d) then s.proc.args[1..] else s.proc.args;
            var kept := Kept(toks[1..], AmpAware(d));
            && s.proc.command == toks[0]
            && (CommandInArgs(d) ==> |s.proc.args| >= 1 && s.proc.args[0] == toks[0])
            && |s.proc.args| <= ArgLimit
            && (AmpAware(d) ==> forall k :: 1 <= k < |s.proc.args| ==> s.proc.args[k] != "&")
            && |rest| <= |kept| && rest == kept[..|rest|]
            && (|kept| < ArgLimit - 1 ==> rest == kept)
            && (s.amp ==> AmpAware(d) && "&" in toks[1..])
            && (|kept| < ArgLimit - 1 ==> (s.amp <==> AmpAware(d) && "&" in toks[1..]))
  {
    var s := ParseStage(toks, d);
    if CommandInArgs(d) {
      ScanArgsSpec(toks[1..], ArgLimit - 1, AmpAware(d));
      assert s.proc.args[1..] == ScanArgs(toks[1..], ArgLimit - 1, AmpAware(d)).args;
      if AmpAware(d) {
        var a := s.proc.args;
        forall k | 1 <= k < |a|
          ensures a[k] != "&"
        {
          assert a[k] == a[1..][k - 1];
        }
      }
    } else {
      ScanArgsSpec(toks[1..], ArgLimit, false);
    }
  }

  /** What one stage appends to `job_string`: the command, then " " + args[i] for every i. */
  function StageJobText(p: Process): string
  {
    p.command + Prefixed(p.args, " ")
  }

  /** The job-string pieces of a list of stages. */
  function StageTexts(ps: seq<Process>): (r: seq<string>)
    ensures |r| == |ps|
    ensures forall i :: 0 <= i < |ps| ==> r[i] == StageJobText(ps[i])
  {
    seq(|ps|, i requires 0 <= i < |ps| => StageJobText(ps[i]))
  }

  /** Failures of the parse loop. */
  datatype ParseError = TooManyProcesses

  /** The token lists of the '|' segments of a line. */
  function Segments(line: string): (r: seq<seq<string>>)
    ensures |r| == Count(line, '|') + 1
    ensures forall i, k :: 0 <= i < |r| && 0 <= k < |r[i]| ==>
              r[i][k] != "" && Free(r[i][k], ' ') && Free(r[i][k], '|')
    ensures |r| == |Fields(line, '|')|
    ensures forall i :: 0 <= i < |r| ==> r[i] == Tokens(Fields(line, '|')[i], ' ')
  {
    var f := Fields(line, '|');
    FieldsCount(line, '|');
    FieldsAreFree(line, '|');
    SegmentWords(f);
    seq(|f|, i requires 0 <= i < |f| => Tokens(f[i], ' '))
  }

  /** The tokens of '|'-free fields are words free of ' ' and '|'. */
  lemma SegmentWords(f: seq<string>)
    requires forall i :: 0 <= i < |f| ==> Free(f[i], '|')
    ensures forall i, k :: 0 <= i < |f| && 0 <= k < |Tokens(f[i], ' ')| ==>
              Tokens(f[i], ' ')[k] != "" && Free(Tokens(f[i], ' ')[k], ' ') && Free(Tokens(f[i], ' ')[k], '|')
  {
    forall i | 0 <= i < |f|
      ensures forall k :: 0 <= k < |Tokens(f[i], ' ')| ==>
                Tokens(f[i], ' ')[k] != "" && Free(Tokens(f[i], ' ')[k], ' ') && Free(Tokens(f[i], ' ')[k], '|')
    {
      TokensAreWords(f[i], ' ');
      FieldsKeepFree(f[i], ' ', '|');
      NonEmptySubset(Fields(f[i], ' '), '|');
    }
  }

  /**
   * What the source needs of a line: every segment the loop reads (it reads
   * at most MAX_PROCESSES + 1 of them) holds a token, or `strdup(NULL)` would
   * be called.
   */
  predicate SegmentsReadable(segs: seq<seq<string>>, stored: nat, d: Dialect)
  {
    forall i :: 0 <= i < |segs| && stored + i <= MaxProcesses(d) ==> |segs[i]| >= 1
  }

  /** The job fields the loop keeps consistent after every stored stage. */
  predicate Consistent(job: Job, d: Dialect)
  {
    && |job.processes| <= MaxProcesses(d)
    && job.jobId == -1
    && (job.pipingFlag <==> |job.processes| > 1)
    && (BuildsJobString(d) ==> job.jobString == Join(StageTexts(job.processes), " | "))
    && (!BuildsJobString(d) ==> job.jobString == "" && !job.background)
  }

  /** The loop over the '|'-separated segments of the line, from a partly built job. */
  function ParseSegments(segs: seq<seq<string>>, d: Dialect, job: Job): (r: Result<Job, ParseError>)
    requires |job.processes| <= MaxProcesses(d)
    requires SegmentsReadable(segs, |job.processes|, d)
    ensures r.Success? ==> |job.processes| <= |r.value.processes| <= MaxProcesses(d)
    ensures r.Success? ==> r.value.processes[..|job.processes|] == job.processes
    ensures r.Success? && job.background ==> r.value.background
    decreases |segs|
  {
    if segs == [] then Success(job)
    else
      var st := ParseStage(segs[0], d);
      if |job.processes| < MaxProcesses(d) then
        var next := Store(job, st, d);
        assert next.processes == job.processes + [st.proc] && (job.background ==> next.background);
        ReadableTail(segs, |job.processes|, d);
        var r := ParseSegments(segs[1..], d, next);
        assert r.Success? ==> r.value.processes[..|job.processes|] == next.processes[..|job.processes|];
        r
      else
        Failure(TooManyProcesses)
  }

  /** A line the parser accepts without calling `strdup(NULL)`. */
  predicate Parsable(line: string, d: Dialect)
  {
    SegmentsReadable(Segments(line), 0, d)
  }

  /** Parses a whole input line (trailing newline already removed). */
  function ParseLine(line: string, d: Dialect): (r: Result<Job, ParseError>)
    requires Parsable(line, d)
    ensures r.Success? <==> Count(line, '|') < MaxProcesses(d)
    ensures r.Success? ==> |r.value.processes| <= MaxProcesses(d)
  {
    ParseSegmentsOk(Segments(line), d, InitJob());
    ParseSegments(Segments(line), d, InitJob())
  }

  /** The job after storing one more stage (the body of the loop when below the cap). */
  function Store(job: Job, st: StageScan, d: Dialect): Job
  {
    var procs := job.processes + [st.proc];
    var sep := if job.processes == [] then "" else " | ";
    job.(
      processes := procs,
      background := job.background || st.amp,
      pipingFlag := job.pipingFlag || |procs| > 1,
      jobString := if BuildsJobString(d) then job.jobString + sep + StageJobText(st.proc) else job.jobString)
  }

  /** Storing a stage below the cap keeps the job consistent. */
  lemma StoreConsistent(job: Job, toks: seq<string>, d: Dialect)
    requires Consistent(job, d)
    requires |job.processes| < MaxProcesses(d)
    requires |toks| >= 1
    ensures Consistent(Store(job, ParseStage(toks, d), d), d)
  {
    var st := ParseStage(toks, d);
    JoinSnoc(StageTexts(job.processes), StageJobText(st.proc), " | ");
    assert StageTexts(job.processes + [st.proc]) == StageTexts(job.processes) + [StageJobText(st.proc)];
    ParseStageSpec(toks, d);
  }

  lemma ReadableTail(segs: seq<seq<string>>, stored: nat, d: Dialect)
    requires segs != []
    requires SegmentsReadable(segs, stored, d)
    ensures SegmentsReadable(segs[1..], stored + 1, d)
  {
    forall i | 0 <= i < |segs[1..]| && stored + 1 + i <= MaxProcesses(d)
      ensures |segs[1..][i]| >= 1
    {
      assert segs[1..][i] == segs[i + 1];
    }
  }

  /** The loop succeeds exactly when all segments fit under MAX_PROCESSES. */
  lemma {:induction false} ParseSegmentsOk(segs: seq<seq<string>>, d: Dialect, job: Job)
    requires |job.processes| <= MaxProcesses(d)
    requires SegmentsReadable(segs, |job.processes|, d)
    ensures ParseSegments(segs, d, job).Success? <==> |job.processes| + |segs| <= MaxProcesses(d)
    decreases |segs|
  {
    if segs != [] && |job.processes| < MaxProcesses(d) {
      ReadableTail(segs, |job.processes|, d);
      ParseSegmentsOk(segs[1..], d, Store(job, ParseStage(segs[0], d), d));
    }
  }

  /** A successful loop keeps the job consistent. */
  lemma {:induction false} ParseSegmentsConsistent(segs: seq<seq<string>>, d: Dialect, job: Job)
    requires Consistent(job, d)
    requires SegmentsReadable(segs, |job.processes|, d)
    ensures ParseSegments(segs, d, job).Success? ==> Consistent(ParseSegments(segs, d, job).value, d)
    decreases |segs|
  {
    if segs != [] && |job.processes| < MaxProcesses(d) {
      ReadableTail(segs, |job.processes|, d);
      StoreConsistent(job, segs[0], d);
      ParseSegmentsConsistent(segs[1..], d, Store(job, ParseStage(segs[0], d), d));
    }
  }

  /** The stages of a list of segments that all hold a token. */
  function Stages(segs: seq<seq<string>>, d: Dialect): (r: seq<Process>)
    requires forall i :: 0 <= i < |segs| ==> |segs[i]| >= 1
    ensures |r| == |segs|
    ensures forall i :: 0 <= i < |segs| ==> r[i] == ParseStage(segs[i], d).proc
  {
    seq(|segs|, i requires 0 <= i < |segs| => ParseStage(segs[i], d).proc)
  }

  /** Below the cap, every segment the loop will read holds a token. */
  lemma ReadableAll(segs: seq<seq<string>>, stored: nat, d: Dialect)
    requires stored + |segs| <= MaxProcesses(d)
    requires SegmentsReadable(segs, stored, d)
    ensures forall i :: 0 <= i < |segs| ==> |segs[i]| >= 1
  {
  }

  lemma StagesCons(segs: seq<seq<string>>, d: Dialect)
    requires segs != []
    requires forall i :: 0 <= i < |segs| ==> |segs[i]| >= 1
    ensures Stages(segs, d) == [ParseStage(segs[0], d).proc] + Stages(segs[1..], d)
  {
    assert forall i :: 0 <= i < |segs[1..]| ==> segs[1..][i] == segs[i + 1];
  }

  lemma ConsThenRest<T>(a: seq<T>, x: T, b: seq<T>, c: seq<T>)
    requires c == [x] + b
    ensures a + [x] + b == a + c
  {
  }

  /** One turn of the loop below the cap: store the first segment's stage and go on. */
  lemma ParseSegmentsStep(segs: seq<seq<string>>, d: Dialect, job: Job)
    requires |job.processes| < MaxProcesses(d)
    requires segs != []
    requires SegmentsReadable(segs, |job.processes|, d)
    ensures |segs[0]| >= 1
    ensures var next := Store(job, ParseStage(segs[0], d), d);
            && next.processes == job.processes + [ParseStage(segs[0], d).proc]
            && SegmentsReadable(segs[1..], |next.processes|, d)
            && ParseSegments(segs, d, job) == ParseSegments(segs[1..], d, next)
  {
    ReadableTail(segs, |job.processes|, d);
  }

  /** A successful loop appends one stage per segment, in order. */
  lemma {:induction false} ParseSegmentsStages(segs: seq<seq<string>>, d: Dialect, job: Job)
    requires |job.processes| <= MaxProcesses(d)
    requires |job.processes| + |segs| <= MaxProcesses(d)
    requires SegmentsReadable(segs, |job.processes|, d)
    ensures forall i :: 0 <= i < |segs| ==> |segs[i]| >= 1
    ensures ParseSegments(segs, d, job).Success?
    ensures ParseSegments(segs, d, job).value.processes == job.processes + Stages(segs, d)
    decreases |segs|
  {
    ReadableAll(segs, |job.processes|, d);
    if segs == [] {
      assert job.processes + Stages(segs, d) == job.processes;
    } else {
      ParseSegmentsStep(segs, d, job);
      var p0 := ParseStage(segs[0], d).proc;
      var next := Store(job, ParseStage(segs[0], d), d);
      ParseSegmentsStages(segs[1..], d, next);
      StagesCons(segs, d);
      ConsThenRest(job.processes, p0, Stages(segs[1..], d), Stages(segs, d));
    }
  }

  /** Some segment's stage consumed an "&". */
  predicate AnyAmp(segs: seq<seq<string>>, d: Dialect)
    requires forall i :: 0 <= i < |segs| ==> |segs[i]| >= 1
  {
    exists i :: 0 <= i < |segs| && ParseStage(segs[i], d).amp
  }

  /** Some segment consumed an "&" iff the first did or a later one did. */
  lemma AnyAmpCons(segs: seq<seq<string>>, d: Dialect)
    requires segs != []
    requires forall i :: 0 <= i < |segs| ==> |segs[i]| >= 1
    ensures AnyAmp(segs, d) <==> ParseStage(segs[0], d).amp || AnyAmp(segs[1..], d)
  {
    if AnyAmp(segs[1..], d) {
      var i :| 0 <= i < |segs[1..]| && ParseStage(segs[1..][i], d).amp;
      assert segs[1..][i] == segs[i + 1];
    }
    if AnyAmp(segs, d) && !ParseStage(segs[0], d).amp {
      var i :| 0 <= i < |segs| && ParseStage(segs[i], d).amp;
      assert segs[1..][i - 1] == segs[i];
    }
  }

  /** A successful loop sets `background` exactly when some stage consumed an "&". */
  lemma {:induction false} ParseSegmentsBackground(segs: seq<seq<string>>, d: Dialect, job: Job)
    requires |job.processes| <= MaxProcesses(d)
    requires |job.processes| + |segs| <= MaxProcesses(d)
    requires SegmentsReadable(segs, |job.processes|, d)
    ensures forall i :: 0 <= i < |segs| ==> |segs[i]| >= 1
    ensures ParseSegments(segs, d, job).Success?
    ensures ParseSegments(segs, d, job).value.background <==> job.background || AnyAmp(segs, d)
    decreases |segs|
  {
    ReadableAll(segs, |job.processes|, d);
    ParseSegmentsOk(segs, d, job);
    if segs != [] {
      ParseSegmentsStep(segs, d, job);
      var next := Store(job, ParseStage(segs[0], d), d);
      assert next.background <==> job.background || ParseStage(segs[0], d).amp;
      ParseSegmentsBackground(segs[1..], d, next);
      AnyAmpCons(segs, d);
    }
  }

  /**
   * The parse loop of wsh1, wsh4, wsh5, wsh6, wsh7 and wshX: a line with at
   * most MAX_PROCESSES segments gives one stage per segment, each being
   * ParseStage of that segment's tokens; `piping_flag` is set exactly when
   * there is more than one stage; `background` is set exactly when some
   * stage consumed an "&"; `job_string` joins the stages' texts with " | "
   * (empty before the first); the job id is still -1. More segments than
   * MAX_PROCESSES fail.
   */
  lemma ParseLineSpec(line: string, d: Dialect)
    requires Parsable(line, d)
    ensures var segs := Segments(line);
            var r := ParseLine(line, d);
            && (r.Success? <==> |segs| <= MaxProcesses(d))
            && (r.Success? ==>
                  && (forall i :: 0 <= i < |segs| ==> |segs[i]| >= 1)
                  && r.value.processes == Stages(segs, d)
                  && |r.value.processes| == |segs| >= 1
                  && r.value.jobId == -1
                  && (r.value.pipingFlag <==> |r.value.processes| > 1)
                  && (r.value.background <==> AnyAmp(segs, d))
                  && (BuildsJobString(d) ==> r.value.jobString == Join(StageTexts(r.value.processes), " | "))
                  && (!BuildsJobString(d) ==> r.value.jobString == "" && !r.value.background))
  {
    var segs := Segments(line);
    assert Consistent(InitJob(), d);
    ParseSegmentsOk(segs, d, InitJob());
    ParseSegmentsConsistent(segs, d, InitJob());
    if |segs| <= MaxProcesses(d) {
      ParseSegmentsStages(segs, d, InitJob());
      ParseSegmentsBackground(segs, d, InitJob());
    }
  }

  /**
   * wsh2 and wsh3 split the whole line at every single space. Every field,
   * empty ones included, becomes an argument, so `arg_count` is the number
   * of spaces plus one; no argument contains a space and joining them with
   * single spaces gives the line back. The source writes `args[arg_count] =
   * NULL` into a MAX_INPUT_SIZE array, so it needs fewer fields than that.
   */
  function SimpleArgs(line: string): (args: seq<string>)
    requires Count(line, ' ') + 1 < MaxInputSize
    ensures |args| == Count(line, ' ') + 1
    ensures forall k :: 0 <= k < |args| ==> Free(args[k], ' ')
    ensures Join(args, " ") == line
  {
    FieldsCount(line, ' ');
    FieldsAreFree(line, ' ');
    JoinFields(line, ' ');
    Fields(line, ' ')
  }
}
