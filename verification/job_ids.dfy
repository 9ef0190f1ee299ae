/**
 * Job-id allocation.
 *
 * wsh6 keeps `used_job_ids` as a flag array indexed by id: the smallest
 * index in [1, MAX_JOBS-1] whose flag is 0 is handed out and its flag set;
 * releasing writes 0 back. wsh5 and wshX instead scan for the smallest
 * value in [1, MAX_JOBS] that occurs nowhere in `used_job_ids`; wshX never
 * writes the array, and wsh5 never calls the scan.
 */
module JobIds {
  import opened Jobs

  // ---------------------------------------------------------------------
  // wsh6: flag array indexed by id
  // ---------------------------------------------------------------------

  /** A `used_job_ids` array. */
  predicate IsPool(used: seq<int>)
  {
    |used| == MaxJobs
  }

  /** The smallest id i with from <= i < MAX_JOBS and a zero flag, or -1. */
  function SmallestFreeFrom(used: seq<int>, from: nat): (r: int)
    requires IsPool(used) && 1 <= from <= MaxJobs
    ensures r == -1 <==> forall j :: from <= j < MaxJobs ==> used[j] != 0
    ensures r != -1 ==> from <= r < MaxJobs && used[r] == 0
    ensures r != -1 ==> forall j :: from <= j < r ==> used[j] != 0
    decreases MaxJobs - from
  {
    if from == MaxJobs then -1
    else if used[from] == 0 then from
    else SmallestFreeFrom(used, from + 1)
  }

  /** `getSmallestAvailableJobID` of wsh6, as a function. */
  function SmallestFreeId(used: seq<int>): int
    requires IsPool(used)
  {
    SmallestFreeFrom(used, 1)
  }

  /**
   * `getSmallestAvailableJobID` of wsh6: the smallest i in [1, MAX_JOBS-1]
   * whose flag is clear; never 0; -1 exactly when ids 1..255 are all in use.
   */
  method GetSmallestAvailableJobId(used: seq<int>) returns (r: int)
    requires IsPool(used)
    ensures r == -1 <==> forall j :: 1 <= j < MaxJobs ==> used[j] != 0
    ensures r != -1 ==> 1 <= r < MaxJobs && used[r] == 0
    ensures r != -1 ==> forall j :: 1 <= j < r ==> used[j] != 0
    ensures r == SmallestFreeId(used)
  {
    var i := 1;
    while i < MaxJobs
      invariant 1 <= i <= MaxJobs
      invariant forall j :: 1 <= j < i ==> used[j] != 0
    {
      if used[i] == 0 {
        return i;
      }
      i := i + 1;
    }
    return -1;
  }

  /** Outcome of the allocation step in `main`. */
  datatype Allocation = Allocated(id: int, pool: seq<int>) | Exhausted

  /** Exit status when no job id is free. */
  const ExhaustedStatus: int := 1

  /**
   * The allocation step of wsh6's `main`: take the smallest free id and set
   * its flag; with none free the shell exits with status 1.
   */
  function Allocate(used: seq<int>): (a: Allocation)
    requires IsPool(used)
    ensures a.Exhausted? <==> forall j :: 1 <= j < MaxJobs ==> used[j] != 0
    ensures a.Allocated? ==> 1 <= a.id < MaxJobs && used[a.id] == 0
    ensures a.Allocated? ==> forall j :: 1 <= j < a.id ==> used[j] != 0
    ensures a.Allocated? ==> IsPool(a.pool) && a.pool[a.id] == 1
    ensures a.Allocated? ==> forall j :: 0 <= j < MaxJobs && j != a.id ==> a.pool[j] == used[j]
  {
    var id := SmallestFreeId(used);
    if id == -1 then Exhausted else Allocated(id, used[id := 1])
  }

  /** Releasing an id: its flag is cleared and nothing else changes. */
  function Release(used: seq<int>, id: int): (r: seq<int>)
    requires IsPool(used) && 0 <= id < MaxJobs
    ensures IsPool(r) && r[id] == 0
    ensures forall j :: 0 <= j < MaxJobs && j != id ==> r[j] == used[j]
    ensures id >= 1 ==> 1 <= SmallestFreeId(r) <= id
  {
    var r := used[id := 0];
    assert id >= 1 ==> r[id] == 0 && !(forall j :: 1 <= j < MaxJobs ==> r[j] != 0);
    r
  }

  /**
   * A foreground job allocates and later releases its id: the pool is back
   * to what it was, so the next allocation hands out the same id again.
   */
  lemma ForegroundRoundTrip(used: seq<int>)
    requires IsPool(used)
    requires Allocate(used).Allocated?
    ensures Release(Allocate(used).pool, Allocate(used).id) == used
    ensures Allocate(Release(Allocate(used).pool, Allocate(used).id)) == Allocate(used)
  {
    var a := Allocate(used);
    assert Release(a.pool, a.id) == used;
  }

  /**
   * Two allocations with no release between them hand out different ids,
   * the second strictly larger: no two jobs hold the same id.
   */
  lemma AllocateTwiceDistinct(used: seq<int>)
    requires IsPool(used)
    requires Allocate(used).Allocated?
    requires Allocate(Allocate(used).pool).Allocated?
    ensures Allocate(Allocate(used).pool).id > Allocate(used).id
  {
  }

  // ---------------------------------------------------------------------
  // wsh5 / wshX: smallest value absent from the array
  // ---------------------------------------------------------------------

  /** The smallest value v with from <= v <= MAX_JOBS that occurs nowhere in used, or -1. */
  function SmallestAbsentFrom(used: seq<int>, from: nat): (r: int)
    requires 1 <= from <= MaxJobs + 1
    ensures r == -1 <==> forall v :: from <= v <= MaxJobs ==> v in used
    ensures r != -1 ==> from <= r <= MaxJobs && r !in used
    ensures r != -1 ==> forall v :: from <= v < r ==> v in used
    decreases MaxJobs + 1 - from
  {
    if from == MaxJobs + 1 then -1
    else if from !in used then from
    else SmallestAbsentFrom(used, from + 1)
  }

  /** `getSmallestAvailableJobID` of wsh5 and wshX, as a function. */
  function SmallestAbsent(used: seq<int>): int
  {
    SmallestAbsentFrom(used, 1)
  }

  /**
   * `getSmallestAvailableJobID` of wsh5 and wshX: the smallest i in
   * [1, MAX_JOBS] equal to no entry of `used_job_ids`, found by the nested
   * scan; -1 only when every value 1..MAX_JOBS occurs.
   */
  method SmallestAbsentValue(used: seq<int>) returns (r: int)
    requires IsPool(used)
    ensures r == -1 <==> forall v :: 1 <= v <= MaxJobs ==> v in used
    ensures r != -1 ==> 1 <= r <= MaxJobs && r !in used
    ensures r != -1 ==> forall v :: 1 <= v < r ==> v in used
    ensures r == SmallestAbsent(used)
  {
    var i := 1;
    while i <= MaxJobs
      invariant 1 <= i <= MaxJobs + 1
      invariant forall v :: 1 <= v < i ==> v in used
    {
      var found := false;
      var j := 0;
      while j < MaxJobs
        invariant 0 <= j <= MaxJobs
        invariant !found
        invariant forall k :: 0 <= k < j ==> used[k] != i
      {
        if used[j] == i {
          found := true;
          break;
        }
        j := j + 1;
      }
      if !found {
        assert i !in used;
        return i;
      }
      i := i + 1;
    }
    return -1;
  }

  /** The values 1..n. */
  function Range(n: nat): (s: set<int>)
    ensures forall v :: v in s <==> 1 <= v <= n
    ensures |s| == n
  {
    if n == 0 then {} else Range(n - 1) + {n}
  }

  /** The set of values held by s. */
  function Elems(s: seq<int>): (e: set<int>)
    ensures forall v :: v in e <==> v in s
    ensures |e| <= |s|
  {
    if s == [] then {} else {s[0]} + Elems(s[1..])
  }

  lemma SubsetOfSameSize(a: set<int>, b: set<int>)
    requires a <= b && |b| <= |a|
    ensures a == b
  {
    var extra := b - a;
    assert b == a + extra;
    assert |b| == |a| + |extra|;
  }

  /**
   * The value scan fails only when the array is a permutation of 1..MAX_JOBS:
   * by counting, every slot then holds a value in that range. So a single
   * slot holding anything else (such as the initial 0) guarantees an id.
   */
  lemma ExhaustedOnlyWhenFull(used: seq<int>)
    requires IsPool(used)
    requires SmallestAbsent(used) == -1
    ensures forall k :: 0 <= k < MaxJobs ==> 1 <= used[k] <= MaxJobs
  {
    var e := Elems(used);
    assert Range(MaxJobs) <= e;
    SubsetOfSameSize(Range(MaxJobs), e);
    forall k | 0 <= k < MaxJobs
      ensures 1 <= used[k] <= MaxJobs
    {
      assert used[k] in e;
    }
  }

  /** What wshX records for one line: the id given to the job and the new `largest_job_id`. */
  datatype Assignment = Assigned(id: int, largest: int) | NoIdExit

  /**
   * wshX's per-line id step: scan for the smallest absent value (exit with
   * status 1 when there is none), then `largest_job_id` becomes the larger
   * of itself and the new id.
   */
  function AssignJobId(used: seq<int>, largest: int): (a: Assignment)
    requires IsPool(used)
    ensures a.NoIdExit? <==> forall v :: 1 <= v <= MaxJobs ==> v in used
    ensures a.Assigned? ==> a.id == SmallestAbsent(used) && 1 <= a.id <= MaxJobs
    ensures a.Assigned? ==> a.largest >= largest && a.largest >= a.id
    ensures a.Assigned? ==> a.largest == largest || a.largest == a.id
  {
    var id := SmallestAbsent(used);
    if id == -1 then NoIdExit
    else Assigned(id, if id > largest then id else largest)
  }

  /** The `used_job_ids` array of wshX: zero-initialised and never written. */
  function UnwrittenPool(): (p: seq<int>)
    ensures IsPool(p)
    ensures forall k :: 0 <= k < |p| ==> p[k] == 0
    ensures forall v :: 1 <= v <= MaxJobs ==> v !in p
  {
    seq(MaxJobs, _ => 0)
  }

  /** The ids wshX assigns to k successive lines, and the final `largest_job_id`. */
  function AssignLines(used: seq<int>, largest: int, k: nat): (seq<int>, int)
    requires IsPool(used)
    decreases k
  {
    if k == 0 then ([], largest)
    else
      match AssignJobId(used, largest)
      case NoIdExit => ([], largest)
      case Assigned(id, l) =>
        var rest := AssignLines(used, l, k - 1);
        ([id] + rest.0, rest.1)
  }

  /**
   * Since wshX never writes `used_job_ids`, every line's job gets id 1 and
   * after the first line `largest_job_id` is 1.
   */
  lemma {:induction false} EveryJobGetsOne(largest: int, k: nat)
    requires 0 <= largest <= 1
    ensures var (ids, l) := AssignLines(UnwrittenPool(), largest, k);
            && |ids| == k
            && (forall i :: 0 <= i < k ==> ids[i] == 1)
            && l == (if k == 0 then largest else 1)
    decreases k
  {
    var used := UnwrittenPool();
    if k > 0 {
      assert 1 !in used;
      assert SmallestAbsent(used) == 1;
      EveryJobGetsOne(1, k - 1);
    }
  }

  /**
   * `largest_job_id` never decreases and bounds every id assigned, whatever
   * the pool holds.
   */
  lemma {:induction false} LargestBoundsIds(used: seq<int>, largest: int, k: nat)
    requires IsPool(used)
    ensures var (ids, l) := AssignLines(used, largest, k);
            && l >= largest
            && forall i :: 0 <= i < |ids| ==> ids[i] <= l
    decreases k
  {
    if k > 0 {
      match AssignJobId(used, largest)
      case NoIdExit =>
      case Assigned(id, l1) =>
        LargestBoundsIds(used, l1, k - 1);
    }
  }
}
