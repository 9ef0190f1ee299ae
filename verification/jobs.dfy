/**
 * The data every iteration of the shell shares: a Process (one pipeline
 * stage) and a Job (one parsed input line), with the source's size limits.
 * Strings and argument vectors are values; the NULL terminator of `args` is
 * implicit in the sequence length (`args[arg_count] == NULL`).
 */
module Jobs {

  /** MAX_INPUT_SIZE: length of every `args` array and of the exec path buffer. */
  const MaxInputSize: nat := 1024

  /** The argument loop runs while `arg_count < MAX_INPUT_SIZE - 2`. */
  const ArgLimit: nat := MaxInputSize - 2

  /** MAX_JOBS: size of `used_job_ids` and of the background table. */
  const MaxJobs: nat := 256

  /** One stage: the command and its argument vector (without the NULL terminator). */
  datatype Process = Process(command: string, args: seq<string>)

  /**
   * One parsed line. jobId is -1 until an id is allocated; pipingFlag is the
   * source's `piping_flag`; jobString is the reconstructed command line.
   */
  datatype Job = Job(
    jobId: int,
    background: bool,
    processes: seq<Process>,
    pipingFlag: bool,
    jobString: string)

  /** `initJob`: no stages, id -1, flags cleared, empty job string. */
  function InitJob(): Job
  {
    Job(-1, false, [], false, "")
  }
}
