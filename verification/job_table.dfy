/**
 * The background job table and the `jobs` listing.
 *
 * wsh6 keeps its table of MAX_JOBS job pointers packed in its first
 * `background_jobs_size` slots: `addToBackgroundJobs` appends a copy,
 * `removeBackgroundJob` deletes the first slot holding a given pointer and
 * shifts the rest left. wsh5 and wshX instead put a job in the first NULL
 * slot among indices 0..99. A slot is modelled as an Entry whose addr is
 * the pointer value, 0 standing for NULL.
 */
module JobTable {
  import opened Wrappers
  import opened Text
  import opened Jobs
  import opened Parser

  /** A pointer to a Job; addr 0 is NULL. */
  datatype Entry = Entry(addr: nat, job: Job)

  /** The NULL pointer. */
  function Null(): Entry
  {
    Entry(0, InitJob())
  }

  /** A fixed-capacity array of slots and the count of slots in use. */
  datatype Table<T> = Table(slots: seq<T>, size: int)

  predicate Valid<T>(t: Table<T>)
  {
    |t.slots| == MaxJobs && 0 <= t.size <= MaxJobs
  }

  /** The slots in use, in table order. */
  function Live<T>(t: Table<T>): seq<T>
    requires Valid(t)
  {
    t.slots[..t.size]
  }

  // ---------------------------------------------------------------------
  // wsh6: packed table
  // ---------------------------------------------------------------------

  /** Position of the first occurrence of x in s. */
  function IndexOf<T(==)>(s: seq<T>, x: T): (i: nat)
    requires x in s
    ensures i < |s| && s[i] == x
    ensures forall k :: 0 <= k < i ==> s[k] != x
  {
    if s[0] == x then 0 else 1 + IndexOf(s[1..], x)
  }

  /** s without its first occurrence of x (s itself when x is absent). */
  function RemoveFirst<T(==)>(s: seq<T>, x: T): seq<T>
  {
    if x in s then s[..IndexOf(s, x)] + s[IndexOf(s, x) + 1..] else s
  }

  /**
   * `removeBackgroundJob`: find the first slot below size holding target;
   * if there is one, shift every later live slot one place left and
   * decrement size. The slot at the new size keeps its old (now duplicate)
   * value and slots beyond are untouched. An absent target changes nothing.
   */
  method RemoveBackgroundJob<T(==)>(t: Table<T>, target: T) returns (r: Table<T>)
    requires Valid(t)
    ensures Valid(r)
    ensures target !in Live(t) ==> r == t
    ensures target in Live(t) ==>
              && r.size == t.size - 1
              && Live(r) == Live(t)[..IndexOf(Live(t), target)] + Live(t)[IndexOf(Live(t), target) + 1..]
              && r.slots[r.size..] == t.slots[r.size..]
    ensures Live(r) == RemoveFirst(Live(t), target)
    ensures r == RemoveFromTable(t, target)
  {
    var index := -1;
    var i := 0;
    while i < t.size
      invariant 0 <= i <= t.size
      invariant index == -1
      invariant forall k :: 0 <= k < i ==> t.slots[k] != target
    {
      if t.slots[i] == target {
        index := i;
        break;
      }
      i := i + 1;
    }
    if index == -1 {
      assert target !in Live(t);
      return t;
    }
    assert Live(t)[index] == target;
    assert IndexOf(Live(t), target) == index;
    var slots := t.slots;
    var j := index;
    while j < t.size - 1
      invariant index <= j <= t.size - 1
      invariant |slots| == |t.slots|
      invariant forall k :: 0 <= k < index ==> slots[k] == t.slots[k]
      invariant forall k :: index <= k < j ==> slots[k] == t.slots[k + 1]
      invariant forall k :: j <= k < |slots| ==> slots[k] == t.slots[k]
    {
      slots := slots[j := slots[j + 1]];
      j := j + 1;
    }
    r := Table(slots, t.size - 1);
    ShiftedSlots(t, target, index, slots);
  }

  /** The slots the shift loop leaves are those RemoveFromTable describes. */
  lemma ShiftedSlots<T>(t: Table<T>, target: T, index: nat, slots: seq<T>)
    requires Valid(t) && index < t.size
    requires |slots| == |t.slots|
    requires forall k :: 0 <= k < index ==> slots[k] == t.slots[k]
    requires forall k :: index <= k < t.size - 1 ==> slots[k] == t.slots[k + 1]
    requires forall k :: t.size - 1 <= k < |slots| ==> slots[k] == t.slots[k]
    ensures slots == t.slots[..index] + t.slots[index + 1..t.size] + t.slots[t.size - 1..]
  {
  }

  /**
   * The table `removeBackgroundJob` leaves: the live slots before the
   * target, the live slots after it moved one place left, then the old
   * last live slot and everything beyond it where they were.
   */
  function RemoveFromTable<T(==)>(t: Table<T>, target: T): (r: Table<T>)
    requires Valid(t)
    ensures Valid(r)
    ensures target !in Live(t) ==> r == t
    ensures target in Live(t) ==>
              && r.size == t.size - 1
              && Live(r) == Live(t)[..IndexOf(Live(t), target)] + Live(t)[IndexOf(Live(t), target) + 1..]
              && r.slots[r.size..] == t.slots[r.size..]
    ensures Live(r) == RemoveFirst(Live(t), target)
  {
    if target in Live(t) then
      var i := IndexOf(Live(t), target);
      var r := Table(t.slots[..i] + t.slots[i + 1..t.size] + t.slots[t.size - 1..], t.size - 1);
      assert Live(r) == Live(t)[..i] + Live(t)[i + 1..];
      r
    else t
  }

  /** What `addToBackgroundJobs` does: store the copy, or report a full table. */
  datatype AddOutcome<T> = Added(table: Table<T>) | TableFull

  /**
   * `addToBackgroundJobs`: with room left, the copy goes into slot size and
   * size grows by one, earlier slots untouched; otherwise "Maximum number of
   * background jobs exceeded." is reported and the table stays as it was.
   */
  function AddToBackgroundJobs<T>(t: Table<T>, e: T): (r: AddOutcome<T>)
    requires Valid(t)
    ensures r.TableFull? <==> t.size == MaxJobs
    ensures r.Added? ==> Valid(r.table) && r.table.size == t.size + 1
    ensures r.Added? ==> Live(r.table) == Live(t) + [e]
    ensures r.Added? ==> r.table.slots[r.table.size..] == t.slots[r.table.size..]
  {
    if t.size < MaxJobs then
      var r := Table(t.slots[t.size := e], t.size + 1);
      assert Live(r) == Live(t) + [e];
      Added(r)
    else TableFull
  }

  // ---------------------------------------------------------------------
  // wsh5 / wshX: first NULL slot among 0..99
  // ---------------------------------------------------------------------

  /** The background scan of wsh5 and wshX only looks at indices below 100. */
  const ScanLimit: nat := 100

  /** The first NULL slot below ScanLimit, if any. */
  function FirstNull(slots: seq<Entry>, from: nat): (r: Option<nat>)
    requires |slots| == MaxJobs && from <= ScanLimit
    ensures r.None? <==> forall k :: from <= k < ScanLimit ==> slots[k].addr != 0
    ensures r.Some? ==> from <= r.value < ScanLimit && slots[r.value].addr == 0
    ensures r.Some? ==> forall k :: from <= k < r.value ==> slots[k].addr != 0
    decreases ScanLimit - from
  {
    if from == ScanLimit then None
    else if slots[from].addr == 0 then Some(from)
    else FirstNull(slots, from + 1)
  }

  /**
   * The background branch of wsh5 and wshX: the job goes into the first
   * NULL slot among indices 0..99 and the size grows by one; with no such
   * slot nothing changes. No slot at index 100 or beyond is ever touched.
   */
  method AddToFirstFreeSlot(t: Table<Entry>, e: Entry) returns (r: Table<Entry>)
    requires |t.slots| == MaxJobs
    ensures |r.slots| == MaxJobs
    ensures FirstNull(t.slots, 0).None? ==> r == t
    ensures FirstNull(t.slots, 0).Some? ==>
              r == Table(t.slots[FirstNull(t.slots, 0).value := e], t.size + 1)
    ensures forall k :: ScanLimit <= k < MaxJobs ==> r.slots[k] == t.slots[k]
  {
    r := t;
    var i := 0;
    while i < ScanLimit
      invariant 0 <= i <= ScanLimit
      invariant r == t
      invariant forall k :: 0 <= k < i ==> t.slots[k].addr != 0
    {
      if t.slots[i].addr == 0 {
        r := Table(t.slots[i := e], t.size + 1);
        break;
      }
      i := i + 1;
    }
  }

  // ---------------------------------------------------------------------
  // The `jobs` listing (wsh6 printBackgroundJobs)
  // ---------------------------------------------------------------------

  /** One stage as listed: the command, then " " + args[k] for k >= 1. */
  function DisplayStage(p: Process): string
  {
    p.command + Prefixed(if |p.args| == 0 then [] else p.args[1..], " ")
  }

  /**
   * The listing text of each stage. For a stage as the parser builds it
   * (`args[0]` is the command) this is its argument vector joined by spaces.
   */
  function DisplayStages(ps: seq<Process>): (r: seq<string>)
    ensures |r| == |ps|
    ensures forall i :: 0 <= i < |ps| && |ps[i].args| >= 1 && ps[i].args[0] == ps[i].command ==>
              r[i] == Join(ps[i].args, " ")
    ensures forall i :: 0 <= i < |ps| ==> r[i] == DisplayStage(ps[i])
  {
    DisplayStagesJoin(ps);
    seq(|ps|, i requires 0 <= i < |ps| => DisplayStage(ps[i]))
  }

  lemma DisplayStagesJoin(ps: seq<Process>)
    ensures forall i :: 0 <= i < |ps| && |ps[i].args| >= 1 && ps[i].args[0] == ps[i].command ==>
              DisplayStage(ps[i]) == Join(ps[i].args, " ")
  {
    forall i | 0 <= i < |ps| && |ps[i].args| >= 1 && ps[i].args[0] == ps[i].command
      ensures DisplayStage(ps[i]) == Join(ps[i].args, " ")
    {
      var a := ps[i].args;
      PrefixedIsJoin(a[0], a[1..], " ");
      assert [a[0]] + a[1..] == a;
    }
  }

  /** What a job line shows after "<id>: ": the stages joined by " | ", then " &" for a background job. */
  function Display(j: Job): string
  {
    Join(DisplayStages(j.processes), " | ") + (if j.background then " &" else "")
  }

  /** One line of the listing. */
  function JobLine(j: Job): string
  {
    FormatInt(j.jobId) + ": " + Display(j) + "\n"
  }

  /** The line of each entry, in order. */
  function LineTexts(es: seq<Entry>): (r: seq<string>)
    ensures |r| == |es|
    ensures forall i :: 0 <= i < |es| ==> r[i] == JobLine(es[i].job)
  {
    seq(|es|, i requires 0 <= i < |es| => JobLine(es[i].job))
  }

  /** The lines of a sequence of entries, in order. */
  function Lines(es: seq<Entry>): string
  {
    Concat(LineTexts(es))
  }

  /**
   * `printBackgroundJobs`: one line per live slot, in table order. When no
   * listed job's text holds a newline, the output has exactly one newline
   * per live slot, and none when the table is empty.
   */
  function PrintBackgroundJobs(t: Table<Entry>): (r: string)
    requires Valid(t)
    ensures t.size == 0 ==> r == ""
    ensures (forall k :: 0 <= k < t.size ==> Free(Display(t.slots[k].job), '\n')) ==> Count(r, '\n') == t.size
  {
    LinesCount(Live(t));
    Lines(Live(t))
  }

  /** Each job line ends in the only newline it holds, when the job's text has none. */
  lemma JobLineCount(j: Job)
    requires Free(Display(j), '\n')
    ensures Count(JobLine(j), '\n') == 1
  {
    var n := FormatInt(j.jobId);
    assert Free(n, '\n') by {
      if j.jobId < 0 {
        assert n == "-" + Digits(-j.jobId);
        assert forall i :: 1 <= i < |n| ==> n[i] == Digits(-j.jobId)[i - 1];
      }
    }
    CountOfFree(n, '\n');
    CountOfFree(": ", '\n');
    CountOfFree(Display(j), '\n');
    CountAppend(n, ": ", '\n');
    CountAppend(n + ": ", Display(j), '\n');
    CountAppend(n + ": " + Display(j), "\n", '\n');
  }

  lemma LinesCons(es: seq<Entry>)
    requires es != []
    ensures Lines(es) == JobLine(es[0].job) + Lines(es[1..])
  {
    assert LineTexts(es)[1..] == LineTexts(es[1..]);
  }

  lemma {:induction false} LinesCount(es: seq<Entry>)
    ensures (forall k :: 0 <= k < |es| ==> Free(Display(es[k].job), '\n')) ==> Count(Lines(es), '\n') == |es|
    decreases |es|
  {
    if es != [] && forall k :: 0 <= k < |es| ==> Free(Display(es[k].job), '\n') {
      assert forall k :: 0 <= k < |es[1..]| ==> es[1..][k] == es[k + 1];
      LinesCons(es);
      JobLineCount(es[0].job);
      LinesCount(es[1..]);
      CountAppend(JobLine(es[0].job), Lines(es[1..]), '\n');
    }
  }


  lemma LinesAppend(a: seq<Entry>, b: seq<Entry>)
    ensures Lines(a + b) == Lines(a) + Lines(b)
  {
    assert LineTexts(a + b) == LineTexts(a) + LineTexts(b);
    ConcatAppend(LineTexts(a), LineTexts(b));
  }

  lemma LinesSplit(s: seq<Entry>, i: nat, e: Entry)
    requires i < |s| && s[i] == e
    ensures Lines(s) == Lines(s[..i]) + JobLine(e.job) + Lines(s[i + 1..])
  {
    var ls := LineTexts(s);
    ConcatSplit(ls, i);
    assert ls[..i] == LineTexts(s[..i]);
    assert ls[i + 1..] == LineTexts(s[i + 1..]);
  }

  /** A job added to the table is listed last, after the lines already listed. */
  lemma ListingAfterAdd(t: Table<Entry>, e: Entry)
    requires Valid(t)
    requires AddToBackgroundJobs(t, e).Added?
    ensures PrintBackgroundJobs(AddToBackgroundJobs(t, e).table) == PrintBackgroundJobs(t) + JobLine(e.job)
  {
    LinesAppend(Live(t), [e]);
    assert LineTexts([e]) == [JobLine(e.job)];
    assert [JobLine(e.job)][1..] == [];
    assert Concat([JobLine(e.job)]) == JobLine(e.job) + Concat([]);
  }

  /**
   * Removing an entry from the table removes exactly its line from the
   * listing; the other lines keep their order.
   */
  lemma ListingAfterRemove(t: Table<Entry>, e: Entry)
    requires Valid(t)
    requires e in Live(t)
    ensures var i := IndexOf(Live(t), e);
            && PrintBackgroundJobs(t) == Lines(Live(t)[..i]) + JobLine(e.job) + Lines(Live(t)[i + 1..])
            && PrintBackgroundJobs(RemoveFromTable(t, e)) == Lines(Live(t)[..i]) + Lines(Live(t)[i + 1..])
  {
    var s := Live(t);
    var i := IndexOf(s, e);
    LinesSplit(s, i, e);
    LinesOfJoined(Live(RemoveFromTable(t, e)), s[..i], s[i + 1..]);
  }

  lemma LinesOfJoined(r: seq<Entry>, a: seq<Entry>, b: seq<Entry>)
    requires r == a + b
    ensures Lines(r) == Lines(a) + Lines(b)
  {
    LinesAppend(a, b);
  }

  /** A listed line starts with the job id, digits only, and ends the line. */
  lemma JobLineShape(j: Job)
    requires j.jobId >= 0
    ensures var line := JobLine(j);
            var id := Digits(j.jobId);
            && line[..|id|] == id
            && ParseDigits(line[..|id|]) == j.jobId
            && line[|id|..|id| + 2] == ": "
            && line[|line| - 1] == '\n'
  {
    DigitsRoundTrip(j.jobId);
  }

  /**
   * The `job_string` the parser builds shows each command twice: once as
   * `command`, once as `args[0]`. Given `args[0] == command`, a stage's
   * job-string text is its listing text with the command put in front.
   */
  lemma JobStringRepeatsCommand(p: Process)
    requires |p.args| >= 1 && p.args[0] == p.command
    ensures StageJobText(p) == p.command + " " + DisplayStage(p)
  {
    assert Prefixed(p.args, " ") == " " + p.args[0] + Prefixed(p.args[1..], " ");
  }

  // ---------------------------------------------------------------------
  // Listing text re-parses to the job
  // ---------------------------------------------------------------------

  lemma {:induction false} PrefixedIsJoin(w: string, ws: seq<string>, sep: string)
    ensures w + Prefixed(ws, sep) == Join([w] + ws, sep)
    decreases |ws|
  {
    if ws != [] {
      PrefixedIsJoin(ws[0], ws[1..], sep);
      assert ([w] + ws)[1..] == ws;
      assert ws == [ws[0]] + ws[1..];
    }
  }

  lemma {:induction false} DropAmpKeeps(ts: seq<string>)
    requires forall k :: 0 <= k < |ts| ==> ts[k] != "&"
    ensures DropAmp(ts) == ts
    decreases |ts|
  {
    if ts != [] {
      DropAmpKeeps(ts[1..]);
      assert ts == [ts[0]] + ts[1..];
    }
  }

  lemma DropAmpTrailing(ts: seq<string>)
    requires forall k :: 0 <= k < |ts| ==> ts[k] != "&"
    ensures DropAmp(ts + ["&"]) == ts
  {
    DropAmpKeeps(ts);
    DropAmpAppend(ts, ["&"]);
  }

  lemma {:induction false} DropAmpAppend(a: seq<string>, b: seq<string>)
    ensures DropAmp(a + b) == DropAmp(a) + DropAmp(b)
    decreases |a|
  {
    if a == [] {
      assert a + b == b;
    } else {
      assert (a + b)[1..] == a[1..] + b;
      DropAmpAppend(a[1..], b);
    }
  }

  /** A stage the parser can produce and the listing shows faithfully. */
  predicate ListableStage(p: Process)
  {
    && 1 <= |p.args| < ArgLimit
    && p.args[0] == p.command
    && (forall k :: 0 <= k < |p.args| ==> p.args[k] != "" && Free(p.args[k], ' ') && Free(p.args[k], '|'))
    && (forall k :: 1 <= k < |p.args| ==> p.args[k] != "&")
  }

  /** The tokens of a listed stage are its argument vector. */
  lemma DisplayStageTokens(p: Process)
    requires ListableStage(p)
    ensures Tokens(DisplayStage(p), ' ') == p.args
  {
    PrefixedIsJoin(p.args[0], p.args[1..], " ");
    assert [p.args[0]] + p.args[1..] == p.args;
    TokensOfJoin(p.args, ' ');
  }

  lemma FreeConcat(a: string, b: string, d: char)
    requires Free(a, d) && Free(b, d)
    ensures Free(a + b, d)
  {
    forall i | 0 <= i < |a + b|
      ensures (a + b)[i] != d
    {
      if i >= |a| {
        assert (a + b)[i] == b[i - |a|];
      }
    }
  }

  lemma {:induction false} PrefixedFree(ws: seq<string>, sep: string, d: char)
    requires Free(sep, d)
    requires forall k :: 0 <= k < |ws| ==> Free(ws[k], d)
    ensures Free(Prefixed(ws, sep), d)
    decreases |ws|
  {
    if ws != [] {
      PrefixedFree(ws[1..], sep, d);
      FreeConcat(sep, ws[0], d);
      FreeConcat(sep + ws[0], Prefixed(ws[1..], sep), d);
    }
  }

  lemma DisplayStageFree(p: Process)
    requires ListableStage(p)
    ensures Free(DisplayStage(p), '|')
  {
    PrefixedFree(p.args[1..], " ", '|');
    FreeConcat(p.command, Prefixed(p.args[1..], " "), '|');
  }

  /** Two lists of segments with the same `strtok` tokens, segment by segment. */
  predicate SameTokens(xs: seq<string>, ys: seq<string>)
  {
    |xs| == |ys| && forall k :: 0 <= k < |xs| ==> Tokens(xs[k], ' ') == Tokens(ys[k], ' ')
  }

  lemma SameTokensCons(x: string, xs: seq<string>, y: string, ys: seq<string>)
    requires Tokens(x, ' ') == Tokens(y, ' ')
    requires SameTokens(xs, ys)
    ensures SameTokens([x] + xs, [y] + ys)
  {
    forall k | 0 <= k < |xs| + 1
      ensures Tokens(([x] + xs)[k], ' ') == Tokens(([y] + ys)[k], ' ')
    {
      if k > 0 {
        assert ([x] + xs)[k] == xs[k - 1];
        assert ([y] + ys)[k] == ys[k - 1];
      }
    }
  }

  lemma SameTokensPadFirst(f: seq<string>, ys: seq<string>)
    requires |f| >= 1
    requires SameTokens(f, ys)
    ensures SameTokens([" " + f[0]] + f[1..], ys)
  {
    TokensIgnorePadding(f[0], ' ');
    assert " " + f[0] == [' '] + f[0];
    assert SameTokens(f[1..], ys[1..]) by {
      forall k | 0 <= k < |f| - 1
        ensures Tokens(f[1..][k], ' ') == Tokens(ys[1..][k], ' ')
      {
        assert f[1..][k] == f[k + 1];
        assert ys[1..][k] == ys[k + 1];
      }
    }
    SameTokensCons(" " + f[0], f[1..], ys[0], ys[1..]);
    assert [ys[0]] + ys[1..] == ys;
  }

  /** One step of a " | "-join, split on '|'. */
  lemma FieldsOfJoinStep(w: string, rest: string)
    requires Free(w, '|')
    ensures Fields(w + " | " + rest, '|') == [w + " "] + Fields(" " + rest, '|')
  {
    var a := w + " ";
    assert w + " | " + rest == a + ['|'] + (" " + rest);
    FieldsSplit(a, '|', " " + rest);
    FreeConcat(w, " ", '|');
    FieldsOfFree(a, '|');
  }

  lemma FieldsLeadingSpace(rest: string)
    ensures Fields(" " + rest, '|') == [" " + Fields(rest, '|')[0]] + Fields(rest, '|')[1..]
  {
    assert (" " + rest)[1..] == rest;
  }

  /**
   * Splitting a " | "-join on '|' gives segments with the same tokens as
   * the joined parts (the extra spaces are skipped by `strtok`).
   */
  lemma {:induction false} FieldsOfPipeJoin(ws: seq<string>)
    requires |ws| >= 1
    requires forall k :: 0 <= k < |ws| ==> Free(ws[k], '|')
    ensures SameTokens(Fields(Join(ws, " | "), '|'), ws)
    decreases |ws|
  {
    if |ws| == 1 {
      FieldsOfFree(ws[0], '|');
    } else {
      var rest := Join(ws[1..], " | ");
      FieldsOfPipeJoin(ws[1..]);
      FieldsOfJoinStep(ws[0], rest);
      FieldsLeadingSpace(rest);
      SameTokensPadFirst(Fields(rest, '|'), ws[1..]);
      TokensIgnorePadding(ws[0], ' ');
      assert ws[0] + " " == ws[0] + [' '];
      SameTokensCons(ws[0] + " ", Fields(" " + rest, '|'), ws[0], ws[1..]);
      assert [ws[0]] + ws[1..] == ws;
    }
  }

  lemma SegmentsOfJoin(ws: seq<string>)
    requires |ws| >= 1
    requires forall k :: 0 <= k < |ws| ==> Free(ws[k], '|')
    ensures |Segments(Join(ws, " | "))| == |ws|
    ensures forall k :: 0 <= k < |ws| ==> Segments(Join(ws, " | "))[k] == Tokens(ws[k], ' ')
  {
    FieldsOfPipeJoin(ws);
  }

  /** Appending text to a join appends it to the last part. */
  lemma JoinAppendLast(ws: seq<string>, sep: string, x: string)
    requires |ws| >= 1
    ensures Join(ws, sep) + x == Join(ws[..|ws| - 1] + [ws[|ws| - 1] + x], sep)
  {
    var init := ws[..|ws| - 1];
    JoinSnoc(init, ws[|ws| - 1], sep);
    JoinSnoc(init, ws[|ws| - 1] + x, sep);
    assert init + [ws[|ws| - 1]] == ws;
  }

  /** A job as the wsh6 parser leaves it, with stages the listing shows faithfully. */
  predicate ListableJob(j: Job)
  {
    && 1 <= |j.processes| <= MaxProcesses(Wsh6)
    && (forall i :: 0 <= i < |j.processes| ==> ListableStage(j.processes[i]))
    && (j.pipingFlag <==> |j.processes| > 1)
    && j.jobString == Join(StageTexts(j.processes), " | ")
  }

  /** The token lists of the listed stages, "&" added to the last for a background job. */
  function ListedSegments(j: Job): (r: seq<seq<string>>)
    requires ListableJob(j)
    ensures |r| == |j.processes|
  {
    var n := |j.processes|;
    seq(n, i requires 0 <= i < n =>
      j.processes[i].args + (if j.background && i == n - 1 then ["&"] else []))
  }

  /** A trailing " &" adds one "&" token. */
  lemma TokensAmpSuffix(w: string)
    ensures Tokens(w + " &", ' ') == Tokens(w, ' ') + ["&"]
  {
    assert w + " &" == w + [' '] + "&";
    FieldsSplit(w, ' ', "&");
    FieldsOfFree("&", ' ');
    NonEmptyAppend(Fields(w, ' '), ["&"]);
  }

  /** The listed stages, with " &" appended to the last one for a background job. */
  function ListedParts(j: Job): (r: seq<string>)
    requires ListableJob(j)
    ensures |r| == |j.processes|
  {
    var ws := DisplayStages(j.processes);
    var n := |ws|;
    if j.background then ws[..n - 1] + [ws[n - 1] + " &"] else ws
  }

  lemma ListedPartsJoin(j: Job)
    requires ListableJob(j)
    ensures Display(j) == Join(ListedParts(j), " | ")
  {
    var ws := DisplayStages(j.processes);
    if j.background {
      JoinAppendLast(ws, " | ", " &");
    } else {
      assert Join(ws, " | ") + "" == Join(ws, " | ");
    }
  }

  lemma ListedPart(j: Job, k: nat)
    requires ListableJob(j) && k < |j.processes|
    ensures Free(ListedParts(j)[k], '|')
    ensures Tokens(ListedParts(j)[k], ' ') == ListedSegments(j)[k]
  {
    var n := |j.processes|;
    var w := DisplayStage(j.processes[k]);
    DisplayStageFree(j.processes[k]);
    DisplayStageTokens(j.processes[k]);
    if j.background && k == n - 1 {
      assert ListedParts(j)[k] == w + " &";
      FreeConcat(w, " &", '|');
      TokensAmpSuffix(w);
    } else {
      assert ListedParts(j)[k] == w;
      assert ListedSegments(j)[k] == j.processes[k].args + [];
    }
  }

  lemma DisplaySegments(j: Job)
    requires ListableJob(j)
    ensures Segments(Display(j)) == ListedSegments(j)
  {
    var parts := ListedParts(j);
    forall k | 0 <= k < |parts|
      ensures Free(parts[k], '|') && Tokens(parts[k], ' ') == ListedSegments(j)[k]
    {
      ListedPart(j, k);
    }
    ListedPartsJoin(j);
    SegmentsOfJoin(parts);
  }

  /** A listable stage's own argument vector parses back to it. */
  lemma StageOfArgs(p: Process)
    requires ListableStage(p)
    ensures ParseStage(p.args, Wsh6) == StageScan(p, false)
  {
    var tail := p.args[1..];
    DropAmpKeeps(tail);
    ScanArgsSpec(tail, ArgLimit - 1, true);
    assert [p.args[0]] + tail == p.args;
  }

  /** The same vector followed by "&" parses back to it, with the "&" consumed. */
  lemma StageOfArgsAmp(p: Process)
    requires ListableStage(p)
    ensures |p.args + ["&"]| >= 1
    ensures ParseStage(p.args + ["&"], Wsh6) == StageScan(p, true)
  {
    var toks := p.args + ["&"];
    var tail := p.args[1..];
    assert toks[1..] == tail + ["&"];
    DropAmpTrailing(tail);
    ScanArgsSpec(tail + ["&"], ArgLimit - 1, true);
    assert "&" in tail + ["&"] by {
      assert (tail + ["&"])[|tail|] == "&";
    }
    assert [p.args[0]] + tail == p.args;
  }

  lemma ListedStage(j: Job, i: nat)
    requires ListableJob(j) && i < |j.processes|
    ensures |ListedSegments(j)[i]| >= 1
    ensures ParseStage(ListedSegments(j)[i], Wsh6).proc == j.processes[i]
    ensures ParseStage(ListedSegments(j)[i], Wsh6).amp <==> j.background && i == |j.processes| - 1
  {
    var p := j.processes[i];
    if j.background && i == |j.processes| - 1 {
      assert ListedSegments(j)[i] == p.args + ["&"];
      StageOfArgsAmp(p);
    } else {
      assert ListedSegments(j)[i] == p.args + [];
      assert p.args + [] == p.args;
      StageOfArgs(p);
    }
  }

  /**
   * The text a `jobs` line shows after "<id>: " is a command line that
   * parses back to the same job, id aside: same stages, same background
   * flag, same piping flag, same `job_string`.
   */
  lemma DisplayRoundTrip(j: Job)
    requires ListableJob(j)
    ensures Parsable(Display(j), Wsh6)
    ensures ParseLine(Display(j), Wsh6) == Success(j.(jobId := -1))
  {
    DisplaySegments(j);
    var segs := Segments(Display(j));
    var n := |j.processes|;
    forall i | 0 <= i < n
      ensures |segs[i]| >= 1
      ensures ParseStage(segs[i], Wsh6).proc == j.processes[i]
      ensures ParseStage(segs[i], Wsh6).amp <==> j.background && i == n - 1
    {
      ListedStage(j, i);
    }
    assert Parsable(Display(j), Wsh6);
    ParseLineSpec(Display(j), Wsh6);
    var r := ParseLine(Display(j), Wsh6).value;
    assert r.processes == j.processes;
    assert r.background == j.background by {
      if j.background {
        assert ParseStage(segs[n - 1], Wsh6).amp;
      }
    }
  }
}
