/**
 * Descriptor bookkeeping of a piped job.
 *
 * Descriptors are abstract numbers: `pipe()` hands out two fresh ones and
 * `close` removes one from the holder's set. A child starts with whatever
 * the parent holds at its `fork`, then redirects stdin and stdout with
 * `dup2` and closes some descriptors. Stdin and stdout are recorded as the
 * pipe they were redirected to; `extra` is what the child still holds of
 * the descriptors the pipeline created. Process creation, `execvp` and the
 * reuse of closed descriptor numbers are not modelled.
 */
module Pipes {
  import opened Wrappers

  datatype Pipe = Pipe(read: nat, write: nat)

  /** The descriptors a process holds, and the next number `pipe()` hands out. */
  datatype Fds = Fds(open: set<nat>, next: nat)

  /** Every held descriptor is below the next fresh number. */
  predicate Fresh(s: Fds)
  {
    forall f :: f in s.open ==> f < s.next
  }

  /** Creating a pipe: two fresh descriptors, both now held. */
  function OpenPipe(s: Fds): (r: (Fds, Pipe))
    requires Fresh(s)
    ensures r.1.read !in s.open && r.1.write !in s.open && r.1.read != r.1.write
    ensures r.0.open == s.open + {r.1.read, r.1.write}
    ensures Fresh(r.0) && r.0.next > s.next
  {
    (Fds(s.open + {s.next, s.next + 1}, s.next + 2), Pipe(s.next, s.next + 1))
  }

  /** Closing descriptor f. */
  function Close(s: Fds, f: nat): (r: Fds)
    ensures r.open == s.open - {f} && r.next == s.next
  {
    Fds(s.open - {f}, s.next)
  }

  /** How a child is set up before `execvp`. */
  datatype Wiring = Wiring(input: Option<Pipe>, output: Option<Pipe>, extra: set<nat>)

  /** Both ends of every pipe in ps. */
  function Ends(ps: seq<Pipe>): set<nat>
  {
    if ps == [] then {} else {ps[0].read, ps[0].write} + Ends(ps[1..])
  }

  /** The pipes are numbered consecutively from b: pipe k holds b + 2k and b + 2k + 1. */
  predicate Numbered(ps: seq<Pipe>, b: nat)
  {
    forall k :: 0 <= k < |ps| ==> ps[k] == Pipe(b + 2 * k, b + 2 * k + 1)
  }

  lemma {:induction false} EndsSnoc(ps: seq<Pipe>, p: Pipe)
    ensures Ends(ps + [p]) == Ends(ps) + {p.read, p.write}
    decreases |ps|
  {
    if ps == [] {
      assert ps + [p] == [p];
      assert Ends([p]) == {p.read, p.write} + Ends([]);
    } else {
      assert (ps + [p])[1..] == ps[1..] + [p];
      EndsSnoc(ps[1..], p);
    }
  }

  /** The ends of consecutively numbered pipes lie in [b, b + 2 |ps|). */
  lemma {:induction false} EndsRange(ps: seq<Pipe>, b: nat)
    requires Numbered(ps, b)
    ensures forall f :: f in Ends(ps) ==> b <= f < b + 2 * |ps|
    decreases |ps|
  {
    if ps != [] {
      assert Numbered(ps[1..], b + 2) by {
        forall k | 0 <= k < |ps[1..]|
          ensures ps[1..][k] == Pipe(b + 2 + 2 * k, b + 2 + 2 * k + 1)
        {
          assert ps[1..][k] == ps[k + 1];
        }
      }
      EndsRange(ps[1..], b + 2);
    }
  }

  /** Every end of every pipe in ps is in Ends(ps). */
  lemma {:induction false} EndsHold(ps: seq<Pipe>)
    ensures forall k :: 0 <= k < |ps| ==> ps[k].read in Ends(ps) && ps[k].write in Ends(ps)
    decreases |ps|
  {
    if ps != [] {
      EndsHold(ps[1..]);
      forall k | 1 <= k < |ps|
        ensures ps[k].read in Ends(ps) && ps[k].write in Ends(ps)
      {
        assert ps[k] == ps[1..][k - 1];
      }
    }
  }

  // ---------------------------------------------------------------------
  // wsh5, wsh6, wshX: one pipe per stage, `prev_pipe_read` carried along
  // ---------------------------------------------------------------------

  /**
   * What child i does: stdin from the previous pipe's read end (closing
   * it) when there is one, stdout to the current pipe's write end (closing
   * both of its ends) unless it is the last stage.
   */
  function RollingChild(held: set<nat>, base: set<nat>, prev: Option<Pipe>, cur: Pipe, last: bool): (w: Wiring)
    ensures w.input == prev && w.output == (if last then None else Some(cur))
    ensures w.extra <= held - base
    ensures prev.Some? ==> prev.value.read !in w.extra
    ensures !last ==> cur.read !in w.extra && cur.write !in w.extra
    ensures !last && held - base <= (if prev.Some? then {prev.value.read} else {}) + {cur.read, cur.write} ==>
              w.extra == {}
  {
    var afterIn := if prev.Some? then held - {prev.value.read} else held;
    var afterOut := if last then afterIn else afterIn - {cur.read, cur.write};
    Wiring(prev, if last then None else Some(cur), afterOut - base)
  }

  /**
   * The `prev_pipe_read` loop. Each iteration opens a pipe and forks; the
   * parent then closes the previous read end and the new write end and
   * keeps the new read end; after the loop it closes the last read end.
   * The parent ends with exactly the descriptors it started with; stage i
   * reads pipe i - 1 and writes pipe i; no child keeps a created descriptor
   * beyond its redirections, except that the last stage keeps both ends of
   * the pipe opened for it, which no other process holds.
   */
  method RollingPipeline(n: nat, s0: Fds) returns (s: Fds, pipes: seq<Pipe>, stages: seq<Wiring>)
    requires Fresh(s0)
    ensures Fresh(s) && s.open == s0.open
    ensures |pipes| == n && |stages| == n
    ensures forall k :: 0 <= k < n ==> pipes[k].read !in s0.open && pipes[k].write !in s0.open
    ensures Numbered(pipes, s0.next)
    ensures forall k :: 0 <= k < n ==> stages[k].input == (if k > 0 then Some(pipes[k - 1]) else None)
    ensures forall k :: 0 <= k < n ==> stages[k].output == (if k < n - 1 then Some(pipes[k]) else None)
    ensures forall k :: 0 <= k < n - 1 ==> stages[k].extra == {}
    ensures n >= 1 ==> stages[n - 1].extra == {pipes[n - 1].read, pipes[n - 1].write}
  {
    s := s0;
    pipes := [];
    stages := [];
    var prev: int := -1;
    var i := 0;
    while i < n
      invariant 0 <= i <= n && |pipes| == i && |stages| == i
      invariant s.next == s0.next + 2 * i
      invariant Numbered(pipes, s0.next)
      invariant i == 0 ==> prev == -1 && s.open == s0.open
      invariant i > 0 ==> prev == pipes[i - 1].read && s.open == s0.open + {pipes[i - 1].read}
      invariant Wired(n, pipes, stages)
    {
      var made := OpenPipe(s);
      s := made.0;
      var p := made.1;
      var w := RollingChild(s.open, s0.open, if i > 0 then Some(pipes[i - 1]) else None, p, i == n - 1);
      RollingChildExtra(s.open, s0.open, if i > 0 then Some(pipes[i - 1]) else None, p, i == n - 1);
      WiredSnoc(n, pipes, stages, p, w);
      if prev != -1 {
        s := Close(s, prev);
      }
      s := Close(s, p.write);
      prev := p.read;
      pipes := pipes + [p];
      stages := stages + [w];
      i := i + 1;
    }
    if prev != -1 {
      s := Close(s, prev);
    }
  }

  /**
   * The stages forked so far are wired as the rolling loop intends: stage k
   * reads pipe k - 1 if k > 0, writes pipe k unless it is stage n - 1, and
   * keeps no created descriptor except the last stage's own pipe.
   */
  predicate Wired(n: nat, pipes: seq<Pipe>, stages: seq<Wiring>)
    requires |stages| <= |pipes|
  {
    forall k {:trigger stages[k]} :: 0 <= k < |stages| ==>
      && stages[k].input == (if k > 0 then Some(pipes[k - 1]) else None)
      && stages[k].output == (if k < n - 1 then Some(pipes[k]) else None)
      && stages[k].extra == (if k == n - 1 then {pipes[k].read, pipes[k].write} else {})
  }

  lemma WiredSnoc(n: nat, pipes: seq<Pipe>, stages: seq<Wiring>, p: Pipe, w: Wiring)
    requires |stages| == |pipes| < n && Wired(n, pipes, stages)
    requires w.input == (if |pipes| > 0 then Some(pipes[|pipes| - 1]) else None)
    requires w.output == (if |pipes| < n - 1 then Some(p) else None)
    requires w.extra == (if |pipes| == n - 1 then {p.read, p.write} else {})
    ensures Wired(n, pipes + [p], stages + [w])
  {
    var ps, ws := pipes + [p], stages + [w];
    forall k | 0 <= k < |ws|
      ensures && ws[k].input == (if k > 0 then Some(ps[k - 1]) else None)
              && ws[k].output == (if k < n - 1 then Some(ps[k]) else None)
              && ws[k].extra == (if k == n - 1 then {ps[k].read, ps[k].write} else {})
    {
      if k < |stages| {
        assert ws[k] == stages[k] && ps[k] == pipes[k];
        if k > 0 { assert ps[k - 1] == pipes[k - 1]; }
      } else {
        assert ws[k] == w && ps[k] == p;
        if k > 0 { assert ps[k - 1] == pipes[k - 1]; }
      }
    }
  }

  /** What a rolling child keeps when the parent holds the shell's own descriptors, the previous read end and the new pipe. */
  lemma RollingChildExtra(held: set<nat>, base: set<nat>, prev: Option<Pipe>, cur: Pipe, last: bool)
    requires held == base + (if prev.Some? then {prev.value.read} else {}) + {cur.read, cur.write}
    requires cur.read !in base && cur.write !in base
    requires prev.Some? ==> prev.value.read != cur.read && prev.value.read != cur.write
    ensures RollingChild(held, base, prev, cur, last).extra == (if last then {cur.read, cur.write} else {})
  {
  }

  /** Consecutive stages of the rolling loop are connected by the same pipe. */
  lemma RollingConnected(n: nat, pipes: seq<Pipe>, stages: seq<Wiring>)
    requires |pipes| == n && |stages| == n
    requires forall k :: 0 <= k < n ==> stages[k].input == (if k > 0 then Some(pipes[k - 1]) else None)
    requires forall k :: 0 <= k < n ==> stages[k].output == (if k < n - 1 then Some(pipes[k]) else None)
    ensures forall k :: 0 <= k < n - 1 ==> stages[k].output.Some? && stages[k].output == stages[k + 1].input
    ensures n >= 1 ==> stages[0].input.None? && stages[n - 1].output.None?
  {
  }

  // ---------------------------------------------------------------------
  // wsh7: n - 1 pipes created before any fork
  // ---------------------------------------------------------------------

  /**
   * wsh7's parent: create the n - 1 pipes, fork every stage (each child
   * inherits all of them, returned as `held`), then close both ends of every
   * pipe. The parent ends with exactly the descriptors it started with.
   */
  method UpFrontPipes(n: nat, s0: Fds) returns (held: set<nat>, s: Fds, pipes: seq<Pipe>)
    requires Fresh(s0) && n >= 2
    ensures |pipes| == n - 1 && Numbered(pipes, s0.next)
    ensures forall k :: 0 <= k < n - 1 ==> pipes[k].read !in s0.open && pipes[k].write !in s0.open
    ensures held == s0.open + Ends(pipes)
    ensures Fresh(s) && s.open == s0.open
  {
    s := s0;
    pipes := [];
    var i := 0;
    while i < n - 1
      invariant 0 <= i <= n - 1 && |pipes| == i
      invariant s.next == s0.next + 2 * i && Numbered(pipes, s0.next)
      invariant s.open == s0.open + Ends(pipes) && Fresh(s)
    {
      var made := OpenPipe(s);
      EndsSnoc(pipes, made.1);
      s := made.0;
      pipes := pipes + [made.1];
      i := i + 1;
    }
    EndsRange(pipes, s0.next);
    held := s.open;
    var j := 0;
    while j < n - 1
      invariant 0 <= j <= n - 1
      invariant s.next == s0.next + 2 * (n - 1)
      invariant s.open == s0.open + Ends(pipes[j..])
    {
      EndsRange(pipes[j + 1..], s0.next + 2 * (j + 1)) by {
        assert Numbered(pipes[j + 1..], s0.next + 2 * (j + 1)) by {
          forall k | 0 <= k < |pipes[j + 1..]|
            ensures pipes[j + 1..][k] == Pipe(s0.next + 2 * (j + 1) + 2 * k, s0.next + 2 * (j + 1) + 2 * k + 1)
          {
            assert pipes[j + 1..][k] == pipes[j + 1 + k];
          }
        }
      }
      assert pipes[j..][1..] == pipes[j + 1..];
      s := Close(Close(s, pipes[j].read), pipes[j].write);
      j := j + 1;
    }
    assert pipes[n - 1..] == [];
  }

  /** Both ends of the pipes next to stage i: its input pipe and its output pipe. */
  function Adjacent(pipes: seq<Pipe>, i: nat): set<nat>
    requires i <= |pipes|
  {
    (if i > 0 then {pipes[i - 1].read, pipes[i - 1].write} else {})
    + (if i < |pipes| then {pipes[i].read, pipes[i].write} else {})
  }

  /**
   * A wsh7 child as written: stage i (of |pipes| + 1) redirects stdin from
   * pipe i - 1 and closes both its ends, redirects stdout to pipe i and
   * closes both its ends; every other pipe stays open in the child.
   */
  function Wsh7Child(held: set<nat>, base: set<nat>, pipes: seq<Pipe>, i: nat): (w: Wiring)
    requires i <= |pipes|
    ensures w.input == (if i > 0 then Some(pipes[i - 1]) else None)
    ensures w.output == (if i < |pipes| then Some(pipes[i]) else None)
    ensures w.extra <= held - base
    ensures forall k :: 0 <= k < |pipes| && (k + 1 == i || k == i) ==>
              pipes[k].read !in w.extra && pipes[k].write !in w.extra
    ensures forall f :: f in held && f !in base && f !in Adjacent(pipes, i) ==> f in w.extra
  {
    var afterIn := if i > 0 then held - {pipes[i - 1].read, pipes[i - 1].write} else held;
    var afterOut := if i < |pipes| then afterIn - {pipes[i].read, pipes[i].write} else afterIn;
    Wiring(if i > 0 then Some(pipes[i - 1]) else None, if i < |pipes| then Some(pipes[i]) else None, afterOut - base)
  }

  /**
   * The wiring every wsh7 child gets right: stage i reads `pipes[i-1]` iff
   * i > 0 and writes `pipes[i]` iff i < n - 1, so stage i's output pipe is
   * stage i + 1's input pipe. But a child keeps both ends of every pipe that
   * is not adjacent to it.
   */
  lemma Wsh7ChildWiring(base: set<nat>, pipes: seq<Pipe>, b: nat, i: nat, j: nat)
    requires Numbered(pipes, b) && forall f :: f in base ==> f < b
    requires i <= |pipes| && j < |pipes| && j + 1 != i && j != i
    ensures var w := Wsh7Child(base + Ends(pipes), base, pipes, i);
            && w.input == (if i > 0 then Some(pipes[i - 1]) else None)
            && w.output == (if i < |pipes| then Some(pipes[i]) else None)
            && pipes[j].read in w.extra && pipes[j].write in w.extra
  {
    EndsHold(pipes);
  }

  /**
   * With three stages, stage 2 still holds the write end of pipe 0, which
   * is stage 1's input: stage 1 cannot see end of input while stage 2 runs,
   * and stage 2 waits for stage 1's output to end.
   */
  lemma Wsh7ThirdStageHoldsFirstWriter(base: set<nat>, b: nat)
    requires forall f :: f in base ==> f < b
    ensures var pipes := [Pipe(b, b + 1), Pipe(b + 2, b + 3)];
            && Wsh7Child(base + Ends(pipes), base, pipes, 1).input == Some(pipes[0])
            && pipes[0].write in Wsh7Child(base + Ends(pipes), base, pipes, 2).extra
  {
    var pipes := [Pipe(b, b + 1), Pipe(b + 2, b + 3)];
    Wsh7ChildWiring(base, pipes, b, 2, 0);
  }

  /** The wsh7 child as intended: after its redirections it closes both ends of every pipe. */
  function Wsh7ChildClosingAll(held: set<nat>, base: set<nat>, pipes: seq<Pipe>, i: nat): (w: Wiring)
    requires i <= |pipes|
    requires held - base <= Ends(pipes)
    ensures w.input == (if i > 0 then Some(pipes[i - 1]) else None)
    ensures w.output == (if i < |pipes| then Some(pipes[i]) else None)
    ensures w.extra == {}
  {
    Wiring(if i > 0 then Some(pipes[i - 1]) else None, if i < |pipes| then Some(pipes[i]) else None, held - Ends(pipes) - base)
  }

  /** The pipeline descriptors a child holds once set up: the ends it redirected and the extra ones it kept. */
  function Uses(w: Wiring): set<nat>
  {
    (if w.input.Some? then {w.input.value.read} else {})
    + (if w.output.Some? then {w.output.value.write} else {})
    + w.extra
  }

  /**
   * With every child closing all pipe descriptors, the write end of pipe k
   * is held by stage k alone, as its stdout, and the read end by stage
   * k + 1 alone, as its stdin: once stage k exits, stage k + 1 sees end of
   * input.
   */
  lemma Wsh7ClosingAllSoleEnds(base: set<nat>, pipes: seq<Pipe>, b: nat, i: nat, k: nat)
    requires Numbered(pipes, b)
    requires i <= |pipes| && k < |pipes|
    ensures var w := Wsh7ChildClosingAll(base + Ends(pipes), base, pipes, i);
            && (pipes[k].write in Uses(w) <==> i == k)
            && (pipes[k].read in Uses(w) <==> i == k + 1)
            && (i == k ==> w.output == Some(pipes[k]))
            && (i == k + 1 ==> w.input == Some(pipes[k]))
  {
  }
}
