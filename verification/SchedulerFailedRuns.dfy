/**
 How a run ends when results are missing or cancelled: a worker that meets one leaves without choosing a next task and
 without closing the channel, so the others may wait for ever.
 */
module SchedulerFailedRuns {
  import opened Wrappers
  import opened Scheduler
  import opened SchedulerProofs
  import opened SchedulerCleanRuns

  /** In order of completion, whether each completed task had a result that was not cancelled. */
  function Outcomes(c: Config, steps: seq<Step>): seq<bool> {
    if steps == [] then []
    else
      var n := |steps| - 1;
      match Exec(c, steps[..n])
      case None => []
      case Some(s) => Outcomes(c, steps[..n]) + OutcomeOf(s, steps[n])
  }

  function OutcomeOf(s: State, step: Step): seq<bool> {
    if Finished(s, step).Some? then [Clean(s.workers[step.w].log)] else []
  }

  function Failures(outcomes: seq<bool>): nat {
    if outcomes == [] then 0
    else Failures(outcomes[..|outcomes| - 1]) + if outcomes[|outcomes| - 1] then 0 else 1
  }

  function Gone(ws: seq<Worker>): nat {
    if ws == [] then 0 else (if ws[0].Exited? then 1 else 0) + Gone(ws[1..])
  }

  /** Every task has completed, the last one to complete without success, and some worker has met only successes. */
  predicate LastOneFailed(c: Config, outcomes: seq<bool>) {
    && |outcomes| == c.Total() > 0 && !outcomes[c.Total() - 1]
    && Failures(outcomes) < c.Workers()
  }

  // ----- the invariant -----------------------------------------------------------------------------------------

  /** The channel is closed by a success of the last task; before that, those who left are those who met a failure, and
      while tasks are pending every other worker has one in flight or to come. */
  ghost predicate FailInv(c: Config, s: State, outcomes: seq<bool>) {
    && |outcomes| == |s.done|
    && (s.shared.closed <==> |outcomes| == c.Total() > 0 && outcomes[c.Total() - 1])
    && (!s.shared.closed ==> Gone(s.workers) == Failures(outcomes))
    && InFlight(s, Each()) + Left(s.starter) + Failures(outcomes) <= c.Workers()
    && (s.shared.pending != [] ==> InFlight(s, Each()) + Left(s.starter) + Failures(outcomes) == c.Workers())
  }

  lemma {:induction false} GoneUpdate(ws: seq<Worker>, i: nat, w: Worker)
    requires i < |ws|
    ensures Gone(ws[i := w]) + (if ws[i].Exited? then 1 else 0) == Gone(ws) + if w.Exited? then 1 else 0
  {
    if i == 0 {
      assert ws[0 := w][1..] == ws[1..];
    } else {
      assert ws[i := w][1..] == ws[1..][i - 1 := w];
      GoneUpdate(ws[1..], i - 1, w);
    }
  }

  lemma FailuresAppend(outcomes: seq<bool>, b: bool)
    ensures Failures(outcomes + [b]) == Failures(outcomes) + if b then 0 else 1
  {
    assert (outcomes + [b])[..|outcomes|] == outcomes;
  }

  /** A task that is in flight is not among those done. */
  lemma StillOut(c: Config, s: State, step: Step)
    requires Inv(c, s) && Enabled(c, s, step) && step.Complete?
    ensures |s.done| < c.Total() && !s.shared.closed
  {
    HeldUpdate(s.workers, step.w, Exited, Each());
  }

  lemma FailStep(c: Config, s: State, step: Step, outcomes: seq<bool>)
    requires Inv(c, s) && FailInv(c, s, outcomes) && Enabled(c, s, step)
    ensures FailInv(c, Apply(c, s, step), outcomes + OutcomeOf(s, step))
  {
    if step.Complete? {
      FailComplete(c, s, step, outcomes);
    } else {
      var s' := Apply(c, s, step);
      TotalsStep(c, s, step);
      Moves(c, s, step, Each());
      if !step.StartNext? && !step.StartSent? { GoneUpdate(s.workers, step.w, s'.workers[step.w]); }
      assert outcomes + [] == outcomes;
    }
  }

  lemma FailComplete(c: Config, s: State, step: Step, outcomes: seq<bool>)
    requires Inv(c, s) && FailInv(c, s, outcomes) && Enabled(c, s, step) && step.Complete?
    ensures FailInv(c, Apply(c, s, step), outcomes + OutcomeOf(s, step))
  {
    var s' := Apply(c, s, step);
    TotalsStep(c, s, step);
    Moves(c, s, step, Each());
    StillOut(c, s, step);
    GoneUpdate(s.workers, step.w, s'.workers[step.w]);
    FailuresAppend(outcomes, Clean(s.workers[step.w].log));
  }

  lemma {:induction false} NoneGone(n: nat)
    ensures Gone(seq(n, _ => Waiting)) == 0
  {
    if n > 0 {
      assert seq(n, _ => Waiting)[1..] == seq(n - 1, _ => Waiting);
      NoneGone(n - 1);
    }
  }

  lemma {:induction false} FailRunInv(c: Config, steps: seq<Step>)
    requires Exec(c, steps).Some?
    ensures FailInv(c, Exec(c, steps).value, Outcomes(c, steps))
  {
    if steps == [] {
      NoneGone(c.Workers());
      NoneHeld(Init(c).workers, Each());
    } else {
      var n := |steps| - 1;
      FailRunInv(c, steps[..n]);
      RunInv(c, steps[..n]);
      FailStep(c, Exec(c, steps[..n]).value, steps[n], Outcomes(c, steps[..n]));
    }
  }

  // ----- how a run ends --------------------------------------------------------------------------------------------

  ghost predicate NoStep(c: Config, s: State) {
    forall step :: !Enabled(c, s, step)
  }

  lemma {:induction false} AllGone(ws: seq<Worker>)
    ensures Gone(ws) <= |ws|
    ensures Gone(ws) == |ws| <==> forall w <- ws :: w.Exited?
  {
    if ws != [] {
      AllGone(ws[1..]);
      assert ws == [ws[0]] + ws[1..];
    }
  }

  lemma StarterThrough(c: Config, s: State)
    requires Inv(c, s) && NoStep(c, s) && (s.starter.Offering? ==> CanSend(c, s.shared))
    ensures s.starter == Ready(0)
  {
    assert !Enabled(c, s, StartSent) && !Enabled(c, s, StartNext(None));
    if s.starter.Ready? && s.starter.left > 0 {
      var t := NextExists(c, s);
      assert Enabled(c, s, StartNext(Some(t)));
      assert false;
    }
  }

  lemma WorkersIdle(c: Config, s: State, i: nat)
    requires Inv(c, s) && NoStep(c, s) && i < |s.workers| && (s.workers[i].Sending? ==> CanSend(c, s.shared))
    ensures s.workers[i].Waiting? || s.workers[i].Exited?
  {
    assert !Enabled(c, s, RunEnds(i, None)) && !Enabled(c, s, Sent(i));
    if s.workers[i].Ended? {
      var step := CompleteStep(c, s, i);
      assert false;
    }
  }

  /** When no step is left, the starter is through, nothing is in flight, and every worker waits or has left. */
  lemma AtTheEnd(c: Config, steps: seq<Step>)
    requires Exec(c, steps).Some? && NoStep(c, Exec(c, steps).value)
    ensures var s := Exec(c, steps).value;
      && s.starter == Ready(0) && InFlight(s, Each()) == 0
      && (forall w <- s.workers :: w.Waiting? || w.Exited?)
      && ((exists w <- s.workers :: w.Waiting?) ==> !s.shared.closed)
  {
    var s := Exec(c, steps).value;
    RunInv(c, steps);
    SendNeverBlocks(c, steps);
    StarterThrough(c, s);
    forall i | 0 <= i < |s.workers| ensures s.workers[i].Waiting? || s.workers[i].Exited? {
      WorkersIdle(c, s, i);
    }
    NoneHeld(s.workers, Each());
    SumEach(s.shared.queue);
    if i :| 0 <= i < |s.workers| && s.workers[i].Waiting? {
      assert !Enabled(c, s, Receive(i)) && !Enabled(c, s, Leave(i));
    } else {
      NobodyLeft(c, steps);
    }
  }

  lemma NobodyLeft(c: Config, steps: seq<Step>)
    requires Exec(c, steps).Some? && forall w <- Exec(c, steps).value.workers :: w.Exited?
    ensures InFlight(Exec(c, steps).value, Each()) == 0
  {
    var s := Exec(c, steps).value;
    RunInv(c, steps);
    FailRunInv(c, steps);
    AllGone(s.workers);
    if s.shared.closed { AllDone(c, s); }
  }

  /**
   For every run, failures included, that has come to its end: some workers wait for ever exactly when the last of all
   tasks to complete failed while not every worker had met a failure. In every other case all workers have left.
   */
  lemma HangsExactly(c: Config, steps: seq<Step>)
    requires Exec(c, steps).Some? && NoStep(c, Exec(c, steps).value)
    ensures !Over(Exec(c, steps).value) <==> LastOneFailed(c, Outcomes(c, steps))
  {
    var s, outcomes := Exec(c, steps).value, Outcomes(c, steps);
    RunInv(c, steps);
    FailRunInv(c, steps);
    AtTheEnd(c, steps);
    AllGone(s.workers);
  }

  lemma OneMore(c: Config, steps: seq<Step>, s: State, step: Step)
    requires Exec(c, steps) == Some(s) && Enabled(c, s, step)
    ensures Exec(c, steps + [step]) == Some(Apply(c, s, step))
  {
    assert (steps + [step])[..|steps|] == steps;
  }

  const TWO: Config := Config(["m", "m"], 2)

  function Counts(pending: seq<nat>, n: int, queue: seq<nat>): Shared {
    Shared(pending, map["m" := n], 0, [], queue, false)
  }

  lemma FirstStarts()
    ensures Init(TWO) == State(Counts([0, 1], 0, []), Ready(2), [Waiting, Waiting], [])
    ensures Enabled(TWO, Init(TWO), StartNext(Some(0)))
    ensures Apply(TWO, Init(TWO), StartNext(Some(0))) == State(Counts([1], 1, []), Offering(1, 0), [Waiting, Waiting], [])
  {
    assert Init(TWO).shared.counts == map["m" := 0];
    assert Init(TWO).workers == [Waiting, Waiting];
    assert IsFirstOfModel(TWO, [0, 1], 0);
  }

  lemma SecondStarts(s: State)
    requires s == State(Counts([1], 1, []), Ready(1), [Running(0), Waiting], [])
    ensures Enabled(TWO, s, StartNext(Some(1)))
    ensures Apply(TWO, s, StartNext(Some(1))) == State(Counts([], 2, []), Offering(0, 1), [Running(0), Waiting], [])
  {
    assert s.shared.pending[0] == 1;
    assert IsFirstOfModel(TWO, [1], 0);
  }

  lemma Received(s: State, w: nat, t: nat)
    requires s.shared.queue == [] && w < |s.workers| && s.workers[w].Waiting? && s.starter.Offering? && s.starter.task == t
    requires CanSend(TWO, s.shared)
    ensures Enabled(TWO, s, StartSent) && Enabled(TWO, Apply(TWO, s, StartSent), Receive(w))
    ensures Apply(TWO, Apply(TWO, s, StartSent), Receive(w))
            == s.(starter := Ready(s.starter.left), workers := s.workers[w := Running(t)])
  {
    assert ([] + [t])[1..] == [] && ([] + [t])[0] == t;
  }

  lemma FirstHanded() returns (steps: seq<Step>)
    ensures Exec(TWO, steps) == Some(State(Counts([1], 1, []), Ready(1), [Running(0), Waiting], []))
  {
    FirstStarts();
    OneMore(TWO, [], Init(TWO), StartNext(Some(0)));
    var s := State(Counts([1], 1, []), Offering(1, 0), [Waiting, Waiting], []);
    steps := Handed([] + [StartNext(Some(0))], s, 0, 0);
    assert [Waiting, Waiting][0 := Running(0)] == [Running(0), Waiting];
  }

  /** Both tasks are handed to the workers. */
  lemma BothStarted() returns (steps: seq<Step>)
    ensures Exec(TWO, steps) == Some(State(Counts([], 2, []), Ready(0), [Running(0), Running(1)], []))
  {
    var first := FirstHanded();
    var s := State(Counts([1], 1, []), Ready(1), [Running(0), Waiting], []);
    SecondStarts(s);
    OneMore(TWO, first, s, StartNext(Some(1)));
    var s' := State(Counts([], 2, []), Offering(0, 1), [Running(0), Waiting], []);
    steps := Handed(first + [StartNext(Some(1))], s', 1, 1);
    assert [Running(0), Waiting][1 := Running(1)] == [Running(0), Running(1)];
  }

  lemma Handed(steps: seq<Step>, s: State, w: nat, t: nat) returns (steps': seq<Step>)
    requires Exec(TWO, steps) == Some(s) && CanSend(TWO, s.shared)
    requires s.shared.queue == [] && w < |s.workers| && s.workers[w].Waiting? && s.starter.Offering? && s.starter.task == t
    ensures Exec(TWO, steps') == Some(s.(starter := Ready(s.starter.left), workers := s.workers[w := Running(t)]))
  {
    Received(s, w, t);
    OneMore(TWO, steps, s, StartSent);
    OneMore(TWO, steps + [StartSent], Apply(TWO, s, StartSent), Receive(w));
    steps' := steps + [StartSent] + [Receive(w)];
  }

  lemma Completed(steps: seq<Step>, s: State, w: nat, log: Option<Log>) returns (steps': seq<Step>)
    requires Exec(TWO, steps) == Some(s) && s.shared.pending == [] && w < |s.workers| && s.workers[w].Running?
    ensures Exec(TWO, steps').Some?
    ensures var s' := Exec(TWO, steps').value;
      && s'.starter == s.starter && s'.workers == s.workers[w := CompleteWorker(log, None)]
      && s'.shared.pending == [] && s'.shared.queue == s.shared.queue
      && s'.shared.completed == s.shared.completed + 1
      && (s'.shared.closed <==> s.shared.closed || (Clean(log) && s'.shared.completed == 2))
  {
    OneMore(TWO, steps, s, RunEnds(w, log));
    var s1 := Apply(TWO, s, RunEnds(w, log));
    OneMore(TWO, steps + [RunEnds(w, log)], s1, Complete(w, None));
    steps' := steps + [RunEnds(w, log)] + [Complete(w, None)];
  }

  /** Two tasks on two workers: the first succeeds, the second ends without a result. The first worker waits for ever. */
  lemma SomeRunHangs() returns (steps: seq<Step>)
    ensures Exec(TWO, steps).Some? && NoStep(TWO, Exec(TWO, steps).value) && !Over(Exec(TWO, steps).value)
  {
    steps := BothStarted();
    steps := Completed(steps, Exec(TWO, steps).value, 0, Some(Log(false, "")));
    steps := Completed(steps, Exec(TWO, steps).value, 1, None);
    var s := Exec(TWO, steps).value;
    assert s.workers == [Waiting, Exited] && s.workers[0] in s.workers;
  }
}
