/**
 * wsh6's bookkeeping across lines: the id flags `used_job_ids`, the
 * background table and the jobs it lists.
 *
 * Each line reaps finished background jobs, is parsed, gets the smallest
 * free id, and then releases that id again unless the job went into the
 * background table. The state wsh6 means to keep is Good: a flag is set
 * exactly for the ids of the listed jobs. Which jobs have finished is what
 * a non-blocking wait reports; it is a parameter here.
 */
module Shell {
  import opened Wrappers
  import opened Jobs
  import opened Parser
  import opened JobIds
  import opened JobTable
  import opened Builtins
  import Text

  /** `used_job_ids`, the background table, and the next address `malloc` returns. */
  datatype State = State(pool: seq<int>, table: Table<Entry>, nextAddr: nat)

  /** What a line leads to: the next state and what `jobs` printed, or the shell's exit. */
  datatype Outcome = Continue(state: State, output: string) | Terminate(status: int)

  /** The ids of the entries. */
  function Ids(es: seq<Entry>): set<int>
  {
    if es == [] then {} else {es[0].job.jobId} + Ids(es[1..])
  }

  /** No two entries share an id. */
  predicate DistinctIds(es: seq<Entry>)
  {
    es == [] || (es[0].job.jobId !in Ids(es[1..]) && DistinctIds(es[1..]))
  }

  /** The state wsh6 keeps if every id is released when its job is done. */
  predicate Good(s: State)
  {
    && IsPool(s.pool) && Valid(s.table) && s.nextAddr >= 1
    && (forall x :: x in Ids(Live(s.table)) ==> 1 <= x < MaxJobs)
    && (forall id :: 0 <= id < MaxJobs ==> s.pool[id] == (if id in Ids(Live(s.table)) then 1 else 0))
    && DistinctIds(Live(s.table))
  }

  /** The state before the first line: every flag clear, every slot NULL. */
  function Init(): (s: State)
    ensures Good(s) && Live(s.table) == []
  {
    State(seq(MaxJobs, _ => 0), Table(seq(MaxJobs, _ => Null()), 0), 1)
  }

  // ---------------------------------------------------------------------
  // Reaping finished background jobs
  // ---------------------------------------------------------------------

  /** The entries whose job has not finished, in table order. */
  function Unfinished(es: seq<Entry>, finished: set<nat>): (r: seq<Entry>)
    ensures |r| <= |es|
    ensures forall e :: e in r <==> e in es && e.addr !in finished
  {
    if es == [] then []
    else (if es[0].addr in finished then [] else [es[0]]) + Unfinished(es[1..], finished)
  }

  /** The entries whose job has finished, in table order. */
  function Finished(es: seq<Entry>, finished: set<nat>): (r: seq<Entry>)
    ensures forall e :: e in r <==> e in es && e.addr in finished
  {
    if es == [] then []
    else (if es[0].addr in finished then [es[0]] else []) + Finished(es[1..], finished)
  }

  /** The flags with every id in ids cleared. */
  function ClearIds(pool: seq<int>, ids: set<int>): (r: seq<int>)
    ensures |r| == |pool|
    ensures forall id :: 0 <= id < |pool| ==> r[id] == (if id in ids then 0 else pool[id])
  {
    seq(|pool|, i requires 0 <= i < |pool| => if i in ids then 0 else pool[i])
  }

  /**
   * The reap as intended: every finished job leaves the table, the others
   * keep their order, and the ids of the finished jobs are released.
   */
  function Reap(s: State, finished: set<nat>): (r: State)
    requires Valid(s.table)
    ensures Valid(r.table) && r.nextAddr == s.nextAddr
    ensures Live(r.table) == Unfinished(Live(s.table), finished)
  {
    var live := Live(s.table);
    var kept := Unfinished(live, finished);
    var t := Table(kept + s.table.slots[|kept|..], |kept|);
    assert Live(t) == kept;
    State(ClearIds(s.pool, Ids(Finished(live, finished))), t, s.nextAddr)
  }

  lemma {:induction false} IdsSplit(es: seq<Entry>, finished: set<nat>)
    ensures Ids(es) == Ids(Finished(es, finished)) + Ids(Unfinished(es, finished))
    ensures DistinctIds(es) ==> Ids(Finished(es, finished)) !! Ids(Unfinished(es, finished))
    ensures DistinctIds(es) ==> DistinctIds(Unfinished(es, finished))
    decreases |es|
  {
    if es != [] {
      IdsSplit(es[1..], finished);
      var f := Finished(es[1..], finished);
      var u := Unfinished(es[1..], finished);
      if es[0].addr in finished {
        assert Finished(es, finished) == [es[0]] + f;
        assert ([es[0]] + f)[1..] == f;
        assert Unfinished(es, finished) == u;
      } else {
        assert Unfinished(es, finished) == [es[0]] + u;
        assert ([es[0]] + u)[1..] == u;
        assert Finished(es, finished) == f;
      }
    }
  }

  /** Reaping keeps the state Good: the released ids are exactly those no listed job holds any more. */
  lemma ReapKeepsGood(s: State, finished: set<nat>)
    requires Good(s)
    ensures Good(Reap(s, finished))
  {
    var live := Live(s.table);
    IdsSplit(live, finished);
  }

  lemma {:induction false} UnfinishedTwice(es: seq<Entry>, finished: set<nat>)
    ensures Unfinished(Unfinished(es, finished), finished) == Unfinished(es, finished)
    decreases |es|
  {
    if es != [] {
      UnfinishedTwice(es[1..], finished);
      var u := Unfinished(es[1..], finished);
      if es[0].addr in finished {
        assert Unfinished(es, finished) == u;
      } else {
        assert Unfinished(es, finished) == [es[0]] + u;
        assert ([es[0]] + u)[1..] == u;
        assert Unfinished([es[0]] + u, finished) == [es[0]] + Unfinished(u, finished);
      }
    }
  }

  lemma {:induction false} NoneFinishedTwice(es: seq<Entry>, finished: set<nat>)
    ensures Finished(Unfinished(es, finished), finished) == []
    decreases |es|
  {
    if es != [] {
      NoneFinishedTwice(es[1..], finished);
      var u := Unfinished(es[1..], finished);
      if es[0].addr in finished {
        assert Unfinished(es, finished) == u;
      } else {
        assert Unfinished(es, finished) == [es[0]] + u;
        assert ([es[0]] + u)[1..] == u;
        assert Finished([es[0]] + u, finished) == Finished(u, finished);
      }
    }
  }

  /**
   * Reaping twice with the same finished jobs is reaping once. wsh6 reaps
   * before every '|' segment of a line; with nothing finishing in between,
   * the repetitions change nothing.
   */
  lemma ReapIdempotent(s: State, finished: set<nat>)
    requires Valid(s.table)
    ensures Reap(Reap(s, finished), finished) == Reap(s, finished)
  {
    var r := Reap(s, finished);
    UnfinishedTwice(Live(s.table), finished);
    NoneFinishedTwice(Live(s.table), finished);
    assert ClearIds(r.pool, Ids(Finished(Live(r.table), finished))) == r.pool;
    var kept := Live(r.table);
    assert kept + r.table.slots[|kept|..] == r.table.slots;
  }

  /**
   * The reap loop as written (wsh6 lines 189-215): for i from 0 while
   * i < size, a finished `background_jobs[i]` is removed by identity, and
   * then the flag at `background_jobs[i]->job_id - 1` is cleared, reading
   * slot i after the shift; i then moves on, past the entry shifted into slot i.
   */
  function ReapAsWritten(s: State, finished: set<nat>, i: nat): (r: State)
    requires Valid(s.table)
    ensures Valid(r.table)
    decreases MaxJobs - i
  {
    if i >= s.table.size then s
    else
      var e := s.table.slots[i];
      if e.addr in finished then
        var t := RemoveFromTable(s.table, e);
        var stale := t.slots[i].job.jobId - 1;
        var pool := if 0 <= stale < |s.pool| then s.pool[stale := 0] else s.pool;
        ReapAsWritten(State(pool, t, s.nextAddr), finished, i + 1)
      else
        ReapAsWritten(s, finished, i + 1)
  }

  /** A table holding the given entries and NULL after them. */
  function TableOf(es: seq<Entry>): (t: Table<Entry>)
    requires |es| <= MaxJobs
    ensures Valid(t) && Live(t) == es
  {
    var t := Table(es + seq(MaxJobs - |es|, _ => Null()), |es|);
    assert Live(t) == es;
    t
  }

  /**
   * One finished background job with id 1: the loop as written empties the
   * table but clears flag 0 and leaves flag 1 set, so id 1 is never handed
   * out again; the intended reap clears flag 1.
   */
  lemma ReapAsWrittenKeepsId(j: Job)
    requires j.jobId == 1
    ensures var s := State(Init().pool[1 := 1], TableOf([Entry(1, j)]), 2);
            var r := ReapAsWritten(s, {1}, 0);
            && Good(s)
            && Live(r.table) == [] && r.pool[1] == 1 && !Good(r)
            && Live(Reap(s, {1}).table) == [] && Reap(s, {1}).pool[1] == 0 && Good(Reap(s, {1}))
  {
    var s := State(Init().pool[1 := 1], TableOf([Entry(1, j)]), 2);
    assert Ids([Entry(1, j)]) == {1};
    var e := Entry(1, j);
    assert Live(s.table) == [e];
    assert IndexOf(Live(s.table), e) == 0;
    var t := RemoveFromTable(s.table, e);
    assert t.size == 0 && t.slots[0] == e;
    var r1 := ReapAsWritten(s, {1}, 0);
    assert r1 == ReapAsWritten(State(s.pool[0 := 0], t, 2), {1}, 1);
    assert Live(r1.table) == [];
    assert r1.pool[1] == 1;
    ReapKeepsGood(s, {1});
    assert Finished([e], {1}) == [e];
    assert Ids(Finished(Live(s.table), {1})) == {1};
  }

  /**
   * Two finished background jobs next to each other: the loop as written
   * removes the first, then steps past the second, which was shifted into
   * the slot just examined; the second stays listed.
   */
  lemma ReapAsWrittenSkipsNext(j1: Job, j2: Job)
    requires j1.jobId == 1 && j2.jobId == 2
    ensures var s := State(Init().pool[1 := 1][2 := 1], TableOf([Entry(1, j1), Entry(2, j2)]), 3);
            && Good(s)
            && Live(ReapAsWritten(s, {1, 2}, 0).table) == [Entry(2, j2)]
            && Live(Reap(s, {1, 2}).table) == []
  {
    var e1 := Entry(1, j1);
    var e2 := Entry(2, j2);
    var s := State(Init().pool[1 := 1][2 := 1], TableOf([e1, e2]), 3);
    assert Live(s.table) == [e1, e2];
    assert [e1, e2][1..] == [e2];
    assert Ids([e2]) == {2};
    assert Ids([e1, e2]) == {1, 2};
    assert IndexOf(Live(s.table), e1) == 0;
    var t := RemoveFromTable(s.table, e1);
    assert t.size == 1 && t.slots[0] == e2;
    assert Live(t) == [e2];
    assert ReapAsWritten(s, {1, 2}, 0) == ReapAsWritten(State(s.pool[1 := 0], t, 3), {1, 2}, 1);
    assert Unfinished([e2], {1, 2}) == [];
    assert Unfinished([e1, e2], {1, 2}) == [];
  }

  // ---------------------------------------------------------------------
  // One line
  // ---------------------------------------------------------------------

  /** The job joins the background table under a fresh address; a full table reports and drops it. */
  function ToBackground(s: State, pool: seq<int>, j: Job): (r: Outcome)
    requires Valid(s.table)
    ensures r.Continue? && r.output == "" && r.state.pool == pool && Valid(r.state.table)
    ensures s.table.size < MaxJobs ==> Live(r.state.table) == Live(s.table) + [Entry(s.nextAddr, j)]
    ensures s.table.size == MaxJobs ==> r.state.table == s.table
    ensures r.state.nextAddr >= s.nextAddr
  {
    match AddToBackgroundJobs(s.table, Entry(s.nextAddr, j))
    case Added(t) => Continue(State(pool, t, s.nextAddr + 1), "")
    case TableFull => Continue(s.(pool := pool), "")
  }

  /**
   * What happens after the id is allocated (flag set in pool): a background
   * job is added to the table, every other job releases its id, `jobs`
   * prints the listing, `exit` ends the shell. As written, a `cd` or `fg`
   * usage error keeps the id; releaseOnUsage releases it as every other
   * branch does.
   */
  function Settle(s: State, j: Job, id: int, pool: seq<int>, releaseOnUsage: bool): (r: Outcome)
    requires IsPool(pool) && 0 <= id < MaxJobs && Valid(s.table) && |j.processes| >= 1
    ensures r.Terminate? <==> Dispatch(j, Wsh6).Exit?
    ensures r.Terminate? ==> r.status == 0
    ensures r.Continue? ==> Valid(r.state.table)
    ensures r.Continue? ==> r.state.pool == pool || r.state.pool == Release(pool, id)
    ensures r.Continue? && r.state.table != s.table ==>
              r.state.pool == pool && Live(r.state.table) == Live(s.table) + [Entry(s.nextAddr, j)]
    ensures r.Continue? && r.output != "" ==> Dispatch(j, Wsh6).ListJobs?
  {
    var done := Continue(s.(pool := Release(pool, id)), "");
    match Dispatch(j, Wsh6)
    case Exit(status) => Terminate(status)
    case Pipeline(_, _) => if j.background then ToBackground(s, pool, j) else done
    case Run(_, _, wait) => if wait then done else ToBackground(s, pool, j)
    case Usage(_) => if releaseOnUsage then done else Continue(s.(pool := pool), "")
    case ListJobs => Continue(s.(pool := Release(pool, id)), PrintBackgroundJobs(s.table))
    case _ => done
  }

  /** wsh6 lines 263-409 for a parsed job, with every branch releasing an id it does not keep. */
  function RunLine(s: State, j: Job): (r: Outcome)
    requires Good(s) && |j.processes| >= 1
    ensures r.Terminate? ==> r.status == 0 || (r.status == ExhaustedStatus && Allocate(s.pool).Exhausted?)
    ensures r.Continue? ==> Valid(r.state.table) && Allocate(s.pool).Allocated?
    ensures r.Continue? && r.state.table != s.table ==>
              Live(r.state.table) == Live(s.table) + [Entry(s.nextAddr, j.(jobId := Allocate(s.pool).id))]
  {
    match Allocate(s.pool)
    case Exhausted => Terminate(ExhaustedStatus)
    case Allocated(id, pool) => Settle(s, j.(jobId := id), id, pool, true)
  }

  /** wsh6 lines 263-409 as written: a usage error of `cd` or `fg` keeps its id. */
  function RunLineAsWritten(s: State, j: Job): (r: Outcome)
    requires Good(s) && |j.processes| >= 1
    ensures r.Terminate? ==> r.status == 0 || (r.status == ExhaustedStatus && Allocate(s.pool).Exhausted?)
    ensures r.Continue? ==> Valid(r.state.table) && Allocate(s.pool).Allocated?
    ensures r.Continue? && r.state.table != s.table ==>
              Live(r.state.table) == Live(s.table) + [Entry(s.nextAddr, j.(jobId := Allocate(s.pool).id))]
  {
    match Allocate(s.pool)
    case Exhausted => Terminate(ExhaustedStatus)
    case Allocated(id, pool) => Settle(s, j.(jobId := id), id, pool, false)
  }

  /**
   * One input line: reap, parse, run. A line with more stages than
   * MAX_PROCESSES is abandoned.
   */
  function ProcessLine(s: State, line: string, finished: set<nat>): (r: Outcome)
    requires Good(s) && Parsable(line, Wsh6)
    ensures Text.Count(line, '|') >= MaxProcesses(Wsh6) ==> r == Continue(Reap(s, finished), "")
    ensures r.Terminate? ==> r.status == 0 || r.status == ExhaustedStatus
    ensures r.Continue? ==> Valid(r.state.table)
  {
    var r := Reap(s, finished);
    ReapKeepsGood(s, finished);
    ParseLineSpec(line, Wsh6);
    match ParseLine(line, Wsh6)
    case Failure(_) => Continue(r, "")
    case Success(j) => RunLine(r, j)
  }

  // ---------------------------------------------------------------------
  // The invariant across lines
  // ---------------------------------------------------------------------

  lemma {:induction false} IdsSnoc(es: seq<Entry>, e: Entry)
    ensures Ids(es + [e]) == Ids(es) + {e.job.jobId}
    ensures DistinctIds(es) && e.job.jobId !in Ids(es) ==> DistinctIds(es + [e])
    decreases |es|
  {
    if es == [] {
      assert es + [e] == [e];
    } else {
      assert (es + [e])[1..] == es[1..] + [e];
      IdsSnoc(es[1..], e);
    }
  }

  lemma {:induction false} IdsCount(es: seq<Entry>)
    requires DistinctIds(es)
    ensures |Ids(es)| == |es|
    decreases |es|
  {
    if es != [] {
      IdsCount(es[1..]);
    }
  }

  lemma SubsetSize(a: set<int>, b: set<int>)
    requires a <= b
    ensures |a| <= |b|
  {
    var extra := b - a;
    assert b == a + extra;
  }

  /**
   * With a Good state, an id is free only while fewer than 255 jobs are
   * listed, so the table (256 slots) always has room for the new job.
   */
  lemma RoomForAllocated(s: State, id: int)
    requires Good(s) && 1 <= id < MaxJobs && s.pool[id] == 0
    ensures s.table.size < MaxJobs - 1
  {
    var ids := Ids(Live(s.table));
    IdsCount(Live(s.table));
    assert ids <= Range(MaxJobs - 1) - {id};
    SubsetSize(ids, Range(MaxJobs - 1) - {id});
  }

  /** Adding the job under a free id keeps the state Good. */
  lemma ToBackgroundKeepsGood(s: State, j: Job, id: int, pool: seq<int>)
    requires Good(s) && 1 <= id < MaxJobs && s.pool[id] == 0 && pool == s.pool[id := 1] && j.jobId == id
    ensures ToBackground(s, pool, j).Continue?
    ensures Good(ToBackground(s, pool, j).state)
    ensures Live(ToBackground(s, pool, j).state.table) == Live(s.table) + [Entry(s.nextAddr, j)]
  {
    RoomForAllocated(s, id);
    IdsSnoc(Live(s.table), Entry(s.nextAddr, j));
  }

  /** Every line keeps the state Good, when usage errors release their ids. */
  lemma RunLineKeepsGood(s: State, j: Job)
    requires Good(s) && |j.processes| >= 1
    ensures RunLine(s, j).Continue? ==> Good(RunLine(s, j).state)
  {
    match Allocate(s.pool)
    case Exhausted =>
    case Allocated(id, pool) =>
      assert Release(pool, id) == s.pool;
      if Dispatch(j.(jobId := id), Wsh6).Pipeline? || Dispatch(j.(jobId := id), Wsh6).Run? {
        ToBackgroundKeepsGood(s, j.(jobId := id), id, pool);
      }
  }

  lemma ProcessLineKeepsGood(s: State, line: string, finished: set<nat>)
    requires Good(s) && Parsable(line, Wsh6)
    ensures ProcessLine(s, line, finished).Continue? ==> Good(ProcessLine(s, line, finished).state)
  {
    ReapKeepsGood(s, finished);
    ParseLineSpec(line, Wsh6);
    if ParseLine(line, Wsh6).Success? {
      RunLineKeepsGood(Reap(s, finished), ParseLine(line, Wsh6).value);
    }
  }

  /**
   * A job that does not go to the background leaves the state as it was
   * (the id is allocated and released again); a background job is listed
   * last under the smallest free id, and the listing grows by its line.
   */
  lemma RunLineEffect(s: State, j: Job)
    requires Good(s) && |j.processes| >= 1 && Allocate(s.pool).Allocated?
    ensures var id := Allocate(s.pool).id;
            var a := Dispatch(j.(jobId := id), Wsh6);
            var r := RunLine(s, j);
            && (a.Exit? <==> r.Terminate?)
            && (r.Continue? && !(a.Pipeline? && j.background) && !(a.Run? && !a.wait) ==> r.state == s)
            && (r.Continue? && ((a.Pipeline? && j.background) || (a.Run? && !a.wait)) ==>
                  && Live(r.state.table) == Live(s.table) + [Entry(s.nextAddr, j.(jobId := id))]
                  && PrintBackgroundJobs(r.state.table) == PrintBackgroundJobs(s.table) + JobLine(j.(jobId := id)))
            && (r.Continue? && a.ListJobs? ==> r.output == PrintBackgroundJobs(s.table))
  {
    var id := Allocate(s.pool).id;
    var pool := Allocate(s.pool).pool;
    assert Release(pool, id) == s.pool;
    var a := Dispatch(j.(jobId := id), Wsh6);
    if (a.Pipeline? && j.background) || (a.Run? && !a.wait) {
      ToBackgroundKeepsGood(s, j.(jobId := id), id, pool);
      var t := ToBackground(s, pool, j.(jobId := id)).state.table;
      ListingAfterAdd(s.table, Entry(s.nextAddr, j.(jobId := id)));
    }
  }

  /**
   * `cd` with no directory, as written: the usage error keeps id 1, so the
   * flags no longer match the (empty) table and the next job gets id 2.
   * Releasing it leaves the initial state unchanged.
   */
  lemma UsageKeepsId()
    ensures var j := Job(-1, false, [Process("cd", ["cd"])], false, "cd cd");
            var r := RunLineAsWritten(Init(), j);
            && r.Continue? && r.state.pool[1] == 1 && Live(r.state.table) == [] && !Good(r.state)
            && Allocate(r.state.pool).Allocated? && Allocate(r.state.pool).id == 2
            && RunLine(Init(), j) == Continue(Init(), "")
  {
    var s := Init();
    assert Allocate(s.pool) == Allocated(1, s.pool[1 := 1]);
    var p := s.pool[1 := 1];
    assert p[2] == 0;
    assert Allocate(p) == Allocated(2, p[2 := 1]);
    assert Release(p, 1) == s.pool;
  }
}
