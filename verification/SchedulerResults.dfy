/** What every run stores as results, failures included, and in which order the channel hands out tasks. */
module SchedulerResults {
  import opened Wrappers
  import opened Scheduler
  import opened SchedulerProofs
  import opened SchedulerCleanRuns

  // ----- results ---------------------------------------------------------------------------------------------------------

  /** Step k ended a run of task t with some log, cancelled or not. */
  ghost predicate EndsWithLog(c: Config, steps: seq<Step>, k: nat, t: nat)
    requires k < |steps|
  {
    exists log :: EndsTask(c, steps, k, t, log)
  }

  /** The steps among the first n that ended a run of task t with a log. */
  ghost function Endings(c: Config, steps: seq<Step>, t: nat, n: nat): set<nat>
    requires n <= |steps|
  {
    set k: nat | k < n && EndsWithLog(c, steps, k, t)
  }

  lemma StepOf(c: Config, steps: seq<Step>, n: nat)
    requires n < |steps| && Exec(c, steps).Some? && Exec(c, steps[..n + 1]).Some?
    ensures Exec(c, steps[..n]).Some? && Enabled(c, Exec(c, steps[..n]).value, steps[n])
    ensures Exec(c, steps[..n + 1]).value == Apply(c, Exec(c, steps[..n]).value, steps[n])
  {
    assert steps[..n + 1][..n] == steps[..n];
  }

  lemma {:induction false} ExecPrefix(c: Config, steps: seq<Step>, n: nat)
    requires n <= |steps| && Exec(c, steps).Some?
    ensures Exec(c, steps[..n]).Some?
    decreases |steps| - n
  {
    if n == |steps| {
      assert steps[..n] == steps;
    } else {
      ExecPrefix(c, steps, n + 1);
      assert steps[..n + 1][..n] == steps[..n];
    }
  }

  /** The result of a run that the step ends with a log. */
  function Added(s: State, step: Step): seq<(nat, Log)> {
    if step.RunEnds? && step.log.Some? && step.w < |s.workers| && s.workers[step.w].Running?
    then [(s.workers[step.w].task, step.log.value)] else []
  }

  lemma ResultAdded(c: Config, steps: seq<Step>, n: nat)
    requires n < |steps| && Exec(c, steps).Some?
    ensures Exec(c, steps[..n]).Some? && Exec(c, steps[..n + 1]).Some?
    ensures Exec(c, steps[..n + 1]).value.shared.results
            == Exec(c, steps[..n]).value.shared.results + Added(Exec(c, steps[..n]).value, steps[n])
  {
    ExecPrefix(c, steps, n);
    ExecPrefix(c, steps, n + 1);
    StepOf(c, steps, n);
  }

  lemma AddedIs(c: Config, steps: seq<Step>, n: nat, t: nat)
    requires n < |steps| && Exec(c, steps[..n]).Some?
    ensures forall log :: EndsTask(c, steps, n, t, log) <==> Added(Exec(c, steps[..n]).value, steps[n]) == [(t, log)]
    ensures var added := Added(Exec(c, steps[..n]).value, steps[n]);
            EndsWithLog(c, steps, n, t) <==> added != [] && added[0].0 == t
  {
    var s := Exec(c, steps[..n]).value;
    forall log ensures EndsTask(c, steps, n, t, log) <==> Added(s, steps[n]) == [(t, log)] {
      if Added(s, steps[n]) == [(t, log)] { assert Added(s, steps[n])[0] == (t, log); }
    }
    var added := Added(s, steps[n]);
    if added != [] && added[0].0 == t { assert EndsTask(c, steps, n, t, added[0].1); }
  }

  /** Nothing is ever taken out of the results. */
  lemma {:induction false} ResultsGrow(c: Config, steps: seq<Step>, n: nat)
    requires n <= |steps| && Exec(c, steps).Some?
    ensures Exec(c, steps[..n]).Some?
    ensures Exec(c, steps[..n]).value.shared.results <= Exec(c, steps).value.shared.results
    decreases |steps| - n
  {
    if n == |steps| {
      assert steps[..n] == steps;
    } else {
      ResultsGrow(c, steps, n + 1);
      ResultAdded(c, steps, n);
    }
  }

  /** For every run: the log with which a run of a task ended, cancelled or not, is among the results. */
  lemma ResultsAreComplete(c: Config, steps: seq<Step>, k: nat, t: nat, log: Log)
    requires Exec(c, steps).Some? && k < |steps| && EndsTask(c, steps, k, t, log)
    ensures (t, log) in Exec(c, steps).value.shared.results
  {
    ResultAdded(c, steps, k);
    AddedIs(c, steps, k, t);
    ResultsGrow(c, steps, k + 1);
    var now := Exec(c, steps[..k + 1]).value.shared.results;
    assert now[|now| - 1] == (t, log);
  }

  /** After the first n steps a task has as many results as its runs have ended with a log. */
  ghost predicate ResultsCount(c: Config, steps: seq<Step>, t: nat, n: nat)
    requires n <= |steps|
  {
    && Exec(c, steps[..n]).Some?
    && Recorded(Exec(c, steps[..n]).value.shared.results, Only(t)) == |Endings(c, steps, t, n)|
  }

  /** So it is for every run. */
  lemma ResultsCounted(c: Config, steps: seq<Step>, t: nat, n: nat)
    requires n <= |steps| && Exec(c, steps).Some?
    ensures ResultsCount(c, steps, t, n)
  {
    NoneCounted(c, steps, t);
    CountedFrom(c, steps, t, 0, n);
  }

  lemma {:induction false} CountedFrom(c: Config, steps: seq<Step>, t: nat, m: nat, n: nat)
    requires m <= n <= |steps| && Exec(c, steps).Some? && ResultsCount(c, steps, t, m)
    ensures ResultsCount(c, steps, t, n)
    decreases n - m
  {
    if m < n {
      CountedStep(c, steps, t, m);
      CountedFrom(c, steps, t, m + 1, n);
    }
  }

  lemma NoneCounted(c: Config, steps: seq<Step>, t: nat)
    ensures ResultsCount(c, steps, t, 0)
  {
    assert steps[..0] == [] && Endings(c, steps, t, 0) == {};
  }

  lemma CountedStep(c: Config, steps: seq<Step>, t: nat, n: nat)
    requires n < |steps| && Exec(c, steps).Some? && ResultsCount(c, steps, t, n)
    ensures ResultsCount(c, steps, t, n + 1)
  {
    OneCounted(c, steps, t, n);
    OneEnding(c, steps, t, n);
  }

  lemma OneCounted(c: Config, steps: seq<Step>, t: nat, n: nat)
    requires n < |steps| && Exec(c, steps).Some?
    ensures Exec(c, steps[..n]).Some? && Exec(c, steps[..n + 1]).Some?
    ensures Recorded(Exec(c, steps[..n + 1]).value.shared.results, Only(t))
            == Recorded(Exec(c, steps[..n]).value.shared.results, Only(t)) + if EndsWithLog(c, steps, n, t) then 1 else 0
  {
    ResultAdded(c, steps, n);
    AddedIs(c, steps, n, t);
    var before, added := Exec(c, steps[..n]).value.shared.results, Added(Exec(c, steps[..n]).value, steps[n]);
    if added == [] {
      assert before + added == before;
    } else {
      assert added == [added[0]];
      RecordedAppend(before, added[0], Only(t));
    }
  }

  lemma OneEnding(c: Config, steps: seq<Step>, t: nat, n: nat)
    requires n < |steps|
    ensures |Endings(c, steps, t, n + 1)| == |Endings(c, steps, t, n)| + if EndsWithLog(c, steps, n, t) then 1 else 0
  {
    var hit := EndsWithLog(c, steps, n, t);
    var a, b := Endings(c, steps, t, n), Endings(c, steps, t, n + 1);
    assert forall k: nat :: k in b <==> k in a || (hit && k == n);
    OneMember(a, b, n, hit);
  }

  lemma OneMember(a: set<nat>, b: set<nat>, n: nat, hit: bool)
    requires n !in a && forall k: nat :: k in b <==> k in a || (hit && k == n)
    ensures |b| == |a| + if hit then 1 else 0
  {
    assert b == a + if hit then {n} else {};
  }

  // ----- the channel --------------------------------------------------------------------------------------------------------

  function SentBy(s: State, step: Step): seq<nat> {
    match step
    case StartSent => if s.starter.Offering? then [s.starter.task] else []
    case Sent(w) => if w < |s.workers| && s.workers[w].Sending? then [s.workers[w].task] else []
    case _ => []
  }

  /** The task that a worker runs after the step, if it began to with the step; s is the state after it. */
  function ReceivedBy(s: State, step: Step): seq<nat> {
    if step.Receive? && step.w < |s.workers| && s.workers[step.w].Running? then [s.workers[step.w].task] else []
  }

  /** The tasks sent so far, in order. */
  function AllSent(c: Config, steps: seq<Step>): seq<nat>
    requires Exec(c, steps).Some?
  {
    if steps == [] then []
    else
      var n := |steps| - 1;
      AllSent(c, steps[..n]) + SentBy(Exec(c, steps[..n]).value, steps[n])
  }

  /** The tasks that workers have begun to run so far, in order. */
  function AllReceived(c: Config, steps: seq<Step>): seq<nat>
    requires Exec(c, steps).Some?
  {
    if steps == [] then []
    else
      var n := |steps| - 1;
      AllReceived(c, steps[..n]) + ReceivedBy(Exec(c, steps).value, steps[n])
  }

  lemma QueueStep(c: Config, s: State, step: Step)
    requires Enabled(c, s, step)
    ensures s.shared.queue + SentBy(s, step) == ReceivedBy(Apply(c, s, step), step) + Apply(c, s, step).shared.queue
  {
    if step.Receive? {
      assert s.shared.queue == [s.shared.queue[0]] + s.shared.queue[1..];
    }
  }

  /** For every run: tasks are run in the order in which they were sent; those sent and not yet run are queued. */
  lemma {:induction false} FirstInFirstOut(c: Config, steps: seq<Step>)
    requires Exec(c, steps).Some?
    ensures AllSent(c, steps) == AllReceived(c, steps) + Exec(c, steps).value.shared.queue
  {
    if steps != [] {
      var n := |steps| - 1;
      var s, s' := Exec(c, steps[..n]).value, Exec(c, steps).value;
      FirstInFirstOut(c, steps[..n]);
      QueueStep(c, s, steps[n]);
      Regroup(AllReceived(c, steps[..n]), s.shared.queue, SentBy(s, steps[n]), ReceivedBy(s', steps[n]), s'.shared.queue);
    }
  }

  lemma Regroup(received: seq<nat>, queue: seq<nat>, sent: seq<nat>, received': seq<nat>, queue': seq<nat>)
    requires queue + sent == received' + queue'
    ensures (received + queue) + sent == (received + received') + queue'
  {
    assert (received + queue) + sent == received + (queue + sent);
    assert (received + received') + queue' == received + (received' + queue');
  }
}
