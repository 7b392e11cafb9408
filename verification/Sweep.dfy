/** A sweep of health checks split over concurrent workers. */
module Sweep {
  import opened HealthStatus

  // ----- Splitting the tasks ------------------------------------------------------------

  function Workers(numWorkers: nat, numTasks: nat): nat {
    if numTasks < numWorkers || numWorkers == 0 then numTasks else numWorkers
  }

  /** The ceiling share of one worker. */
  function Share(workers: nat, numTasks: nat): nat
    requires workers > 0
  {
    (numTasks + workers - 1) / workers
  }

  function First(i: nat, share: nat): nat {
    i * share
  }

  function End(i: nat, share: nat, numTasks: nat): nat {
    var end := (i + 1) * share;
    if end > numTasks then numTasks else end
  }

  lemma ShareCovers(workers: nat, n: nat)
    requires workers > 0 && n > 0
    ensures Share(workers, n) > 0 && workers * Share(workers, n) >= n
  {
    var x := n + workers - 1;
    assert x == workers * (x / workers) + x % workers;
    assert x / workers == 0 ==> x < workers;
  }

  lemma ShareAtMost(workers: nat, n: nat)
    requires workers > 0
    ensures workers * Share(workers, n) < n + workers
  {
    var x := n + workers - 1;
    assert x == workers * (x / workers) + x % workers;
  }

  lemma Quotient(t: nat, c: nat, i: nat)
    requires c > 0
    ensures t / c == i <==> i * c <= t < (i + 1) * c
  {
    var q := t / c;
    assert t == q * c + t % c;
    if i < q {
      assert (i + 1) * c <= q * c;
    } else if i > q {
      assert (q + 1) * c <= i * c;
    }
  }

  lemma MulMonotone(a: nat, b: nat, c: nat)
    ensures a >= b ==> a * c >= b * c
  {
  }

  function OwnerOf(t: nat, share: nat): nat {
    if share == 0 then 0 else t / share
  }

  /** For every number of tasks and workers the ranges split the tasks: each task falls in
      the range of exactly one worker, and no range is longer than the ceiling share; there
      are as many workers as tasks and limit permit. */
  lemma RangesPartition(numWorkers: nat, n: nat, t: nat)
    requires t < n
    ensures var w := Workers(numWorkers, n);
            && 0 < w <= n && (numWorkers != 0 ==> w <= numWorkers) && (w == n || w == numWorkers) && w * Share(w, n) < n + w
            && t / Share(w, n) < w
            && forall i: nat :: First(i, Share(w, n)) <= t < End(i, Share(w, n), n) <==> i == t / Share(w, n)
  {
    var w := Workers(numWorkers, n);
    var c := Share(w, n);
    ShareCovers(w, n);
    ShareAtMost(w, n);
    Quotient(t, c, t / c);
    MulMonotone(t / c, w, c);
    forall i: nat ensures First(i, c) <= t < End(i, c, n) <==> i == t / c {
      Quotient(t, c, i);
    }
  }

  // ----- Interleaved workers ------------------------------------------------------------

  /** The entries to check, the results the checks will give, and each worker's range;
      owner[t] is the worker task t falls to. */
  datatype Job = Job(first: seq<nat>, end: seq<nat>, owner: seq<nat>, entries: seq<Status>, samples: seq<Sample>) {
    ghost predicate Valid() {
      && |samples| == |entries| == |owner| && |first| == |end|
      && (forall t :: 0 <= t < |owner| ==> owner[t] < |first| && first[owner[t]] <= t < end[owner[t]])
      && (forall i :: 0 <= i < |end| ==> end[i] <= |entries|)
      && (forall i, t :: 0 <= i < |first| && 0 <= t < |owner| && first[i] <= t < end[i] ==> owner[t] == i)
    }

    predicate Flips(t: nat)
      requires |samples| == |entries| && t < |entries|
    {
      Observe(entries[t], samples[t]).healthy != entries[t].healthy
    }
  }

  /** The job of a sweep over entries with a limit of numWorkers. */
  function SweepJob(numWorkers: nat, entries: seq<Status>, samples: seq<Sample>): Job
    requires entries != []
  {
    var n := |entries|;
    var w := Workers(numWorkers, n);
    var c := Share(w, n);
    Job(seq(w, (i: nat) => First(i, c)), seq(w, (i: nat) => End(i, c, n)), seq(n, (t: nat) => OwnerOf(t, c)), entries, samples)
  }

  lemma SweepJobValid(numWorkers: nat, entries: seq<Status>, samples: seq<Sample>)
    requires entries != [] && |samples| == |entries|
    ensures SweepJob(numWorkers, entries, samples).Valid()
  {
    var j := SweepJob(numWorkers, entries, samples);
    var n := |entries|;
    ShareCovers(Workers(numWorkers, n), n);
    forall t | 0 <= t < n
      ensures j.owner[t] < |j.first| && j.first[j.owner[t]] <= t < j.end[j.owner[t]]
      ensures forall i :: 0 <= i < |j.first| && j.first[i] <= t < j.end[i] ==> j.owner[t] == i
    {
      RangesPartition(numWorkers, n, t);
    }
  }

  /** Workers at their positions; a busy one has updated its entry and not yet raised the
      changed flag for it. */
  datatype State = State(pos: seq<nat>, busy: seq<bool>, entries: seq<Status>, changed: bool)

  function Start(j: Job): State {
    State(j.first, seq(|j.first|, _ => false), j.entries, false)
  }

  predicate CanStep(j: Job, s: State, i: nat) {
    && i < |s.pos| == |s.busy| == |j.end| && s.pos[i] < j.end[i] <= |j.entries|
    && |s.entries| == |j.entries| == |j.samples|
  }

  /** A worker updates its entry, then raises the flag if it flipped and moves on. */
  function Step(j: Job, s: State, i: nat): State
    requires CanStep(j, s, i)
  {
    var t := s.pos[i];
    if !s.busy[i] then
      s.(busy := s.busy[i := true], entries := s.entries[t := Observe(s.entries[t], j.samples[t])])
    else
      s.(busy := s.busy[i := false], pos := s.pos[i := t + 1], changed := s.changed || j.Flips(t))
  }

  function Run(j: Job, s: State, who: seq<nat>): State {
    if who == [] then s
    else
      var r, i := Run(j, s, who[..|who| - 1]), who[|who| - 1];
      if CanStep(j, r, i) then Step(j, r, i) else r
  }

  ghost predicate Shape(j: Job, s: State) {
    && j.Valid() && |s.pos| == |s.busy| == |j.first| && |s.entries| == |j.entries|
    && (forall i :: 0 <= i < |j.first| ==> j.first[i] <= s.pos[i] && (s.busy[i] ==> s.pos[i] < j.end[i]))
  }

  ghost predicate Passed(j: Job, s: State, t: nat)
    requires Shape(j, s) && t < |j.entries|
  {
    t < s.pos[j.owner[t]]
  }

  ghost predicate Updated(j: Job, s: State, t: nat)
    requires Shape(j, s) && t < |j.entries|
  {
    Passed(j, s, t) || (t == s.pos[j.owner[t]] && s.busy[j.owner[t]])
  }

  ghost predicate Inv(j: Job, s: State) {
    && Shape(j, s)
    && (forall t: nat :: t < |j.entries| ==>
          s.entries[t] == if Updated(j, s, t) then Observe(j.entries[t], j.samples[t]) else j.entries[t])
    && (s.changed <==> exists t: nat :: t < |j.entries| && Passed(j, s, t) && j.Flips(t))
  }

  lemma StepShape(j: Job, s: State, i: nat)
    requires Shape(j, s) && CanStep(j, s, i)
    ensures Shape(j, Step(j, s, i)) && j.owner[s.pos[i]] == i
    ensures var s' := Step(j, s, i);
            forall t: nat :: t < |j.entries| ==>
              && (Passed(j, s', t) <==> Passed(j, s, t) || (t == s.pos[i] && s.busy[i]))
              && (Updated(j, s', t) <==> Updated(j, s, t) || t == s.pos[i])
  {
  }

  lemma StepInv(j: Job, s: State, i: nat)
    requires Inv(j, s) && CanStep(j, s, i)
    ensures Inv(j, Step(j, s, i))
  {
    var s', x := Step(j, s, i), s.pos[i];
    StepShape(j, s, i);
    assert Updated(j, s, x) <==> s.busy[i];
    if s'.changed {
      if s.changed {
        var t: nat :| t < |j.entries| && Passed(j, s, t) && j.Flips(t);
        assert Passed(j, s', t);
      } else {
        assert Passed(j, s', x) && j.Flips(x);
      }
    }
  }

  lemma {:induction false} RunInv(j: Job, who: seq<nat>)
    requires j.Valid()
    ensures Inv(j, Run(j, Start(j), who))
  {
    if who != [] {
      RunInv(j, who[..|who| - 1]);
      var r, i := Run(j, Start(j), who[..|who| - 1]), who[|who| - 1];
      if CanStep(j, r, i) {
        StepInv(j, r, i);
      }
    }
  }

  ghost predicate Finished(j: Job, s: State) {
    |s.pos| == |j.end| && forall i :: 0 <= i < |j.end| ==> s.pos[i] >= j.end[i]
  }

  /** Whatever order the workers are scheduled in, once all have finished every entry has
      seen exactly its own result and the flag tells whether any flipped: the outcome of
      one sequential pass. */
  lemma AnyScheduleIsSequential(numWorkers: nat, entries: seq<Status>, samples: seq<Sample>, who: seq<nat>)
    requires entries != [] && |samples| == |entries|
    requires Finished(SweepJob(numWorkers, entries, samples), Run(SweepJob(numWorkers, entries, samples), Start(SweepJob(numWorkers, entries, samples)), who))
    ensures var j := SweepJob(numWorkers, entries, samples);
            var s := Run(j, Start(j), who);
            && |s.entries| == |entries|
            && (forall t: nat :: t < |entries| ==> s.entries[t] == Observe(entries[t], samples[t]))
            && (s.changed <==> exists t: nat :: t < |entries| && j.Flips(t))
  {
    var j := SweepJob(numWorkers, entries, samples);
    var s := Run(j, Start(j), who);
    SweepJobValid(numWorkers, entries, samples);
    RunInv(j, who);
    FinishedIsSequential(j, s);
  }

  lemma FinishedIsSequential(j: Job, s: State)
    requires Inv(j, s) && Finished(j, s)
    ensures forall t: nat :: t < |j.entries| ==> s.entries[t] == Observe(j.entries[t], j.samples[t])
    ensures s.changed <==> exists t: nat :: t < |j.entries| && j.Flips(t)
  {
    forall t: nat | t < |j.entries| ensures Passed(j, s, t) {
    }
  }
}
