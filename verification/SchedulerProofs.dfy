/** What every run of the scheduler keeps, and how every run without a missing or cancelled result ends. */
module SchedulerProofs {
  import opened Wrappers
  import opened Scheduler

  // ----- counting tasks where they are ---------------------------------------------------------------

  type Weight = nat -> nat

  function Sum(xs: seq<nat>, g: Weight): nat {
    if xs == [] then 0 else g(xs[0]) + Sum(xs[1..], g)
  }

  function Held(w: Worker, g: Weight): nat {
    match w case Running(t) => g(t) case Ended(t, _) => g(t) case Sending(t) => g(t) case _ => 0
  }

  function HeldByStarter(s: Starter, g: Weight): nat {
    match s case Offering(_, t) => g(t) case Ready(_) => 0
  }

  function HeldByWorkers(ws: seq<Worker>, g: Weight): nat {
    if ws == [] then 0 else Held(ws[0], g) + HeldByWorkers(ws[1..], g)
  }

  /** Tasks being sent, queued, running, or ended but not yet counted as completed. */
  function InFlight(s: State, g: Weight): nat {
    Sum(s.shared.queue, g) + HeldByStarter(s.starter, g) + HeldByWorkers(s.workers, g)
  }

  function Each(): Weight { (t: nat) => 1 }
  function Only(i: nat): Weight { (t: nat) => if t == i then 1 else 0 }
  function OfModel(c: Config, m: string): Weight { (t: nat) => if c.ModelOf(t) == m then 1 else 0 }

  function Left(s: Starter): nat { s.left }

  /** How often task i occurs in all of pending, in flight and done. */
  function Places(s: State, i: nat): nat {
    Sum(s.shared.pending, Only(i)) + InFlight(s, Only(i)) + Sum(s.done, Only(i))
  }

  lemma {:induction false} SumAppend(xs: seq<nat>, t: nat, g: Weight)
    ensures Sum(xs + [t], g) == Sum(xs, g) + g(t)
  {
    if xs != [] {
      assert (xs + [t])[1..] == xs[1..] + [t];
      SumAppend(xs[1..], t, g);
    } else {
      assert xs + [t] == [t];
    }
  }

  lemma {:induction false} SumWithout(xs: seq<nat>, t: nat, g: Weight)
    requires t in xs
    ensures Sum(Without(xs, t), g) + g(t) == Sum(xs, g)
  {
    if xs[0] != t {
      SumWithout(xs[1..], t, g);
      assert Without(xs, t)[1..] == Without(xs[1..], t);
    }
  }

  lemma {:induction false} HeldUpdate(ws: seq<Worker>, i: nat, w: Worker, g: Weight)
    requires i < |ws|
    ensures HeldByWorkers(ws[i := w], g) + Held(ws[i], g) == HeldByWorkers(ws, g) + Held(w, g)
    ensures HeldByWorkers(ws, g) >= Held(ws[i], g)
  {
    if i == 0 {
      assert ws[0 := w][1..] == ws[1..];
    } else {
      assert ws[i := w][1..] == ws[1..][i - 1 := w];
      HeldUpdate(ws[1..], i - 1, w, g);
    }
  }

  lemma {:induction false} SumMember(xs: seq<nat>, t: nat)
    ensures Sum(xs, Only(t)) > 0 <==> t in xs
  {
    if xs != [] { SumMember(xs[1..], t); }
  }

  lemma {:induction false} SumEach(xs: seq<nat>)
    ensures Sum(xs, Each()) == |xs|
  {
    if xs != [] { SumEach(xs[1..]); }
  }

  // ----- what one step does to the places of tasks -----------------------------------------------------

  function Taken(t: Option<nat>, g: Weight): nat {
    match t case Some(u) => g(u) case None => 0
  }

  function Chosen(step: Step): Option<nat> {
    match step case StartNext(t) => t case Complete(_, t) => t case _ => None
  }

  function Finished(s: State, step: Step): Option<nat> {
    if step.Complete? && step.w < |s.workers| && s.workers[step.w].Ended? then Some(s.workers[step.w].task) else None
  }

  lemma CompleteMoves(c: Config, s: State, step: Step, g: Weight)
    requires Enabled(c, s, step) && step.Complete?
    ensures var s' := Apply(c, s, step);
      && Sum(s'.shared.pending, g) + Taken(Chosen(step), g) == Sum(s.shared.pending, g)
      && InFlight(s', g) + Taken(Finished(s, step), g) == InFlight(s, g) + Taken(Chosen(step), g)
      && Sum(s'.done, g) == Sum(s.done, g) + Taken(Finished(s, step), g)
  {
    var s' := Apply(c, s, step);
    HeldUpdate(s.workers, step.w, s'.workers[step.w], g);
    SumAppend(s.done, s.workers[step.w].task, g);
    if step.t.Some? { SumWithout(s.shared.pending, step.t.value, g); }
  }

  /** A step moves the chosen task out of pending and the completed one into done; nothing else changes place. */
  lemma Moves(c: Config, s: State, step: Step, g: Weight)
    requires Enabled(c, s, step)
    ensures var s' := Apply(c, s, step);
      && Sum(s'.shared.pending, g) + Taken(Chosen(step), g) == Sum(s.shared.pending, g)
      && InFlight(s', g) + Taken(Finished(s, step), g) == InFlight(s, g) + Taken(Chosen(step), g)
      && Sum(s'.done, g) == Sum(s.done, g) + Taken(Finished(s, step), g)
  {
    var s' := Apply(c, s, step);
    match step
    case StartNext(t) => if t.Some? { SumWithout(s.shared.pending, t.value, g); }
    case StartSent => SumAppend(s.shared.queue, s.starter.task, g);
    case Receive(w) => HeldUpdate(s.workers, w, s'.workers[w], g);
    case RunEnds(w, _) => HeldUpdate(s.workers, w, s'.workers[w], g);
    case Complete(_, _) => CompleteMoves(c, s, step, g);
    case Sent(w) =>
      HeldUpdate(s.workers, w, s'.workers[w], g);
      SumAppend(s.shared.queue, s.workers[w].task, g);
    case Leave(w) => HeldUpdate(s.workers, w, s'.workers[w], g);
  }

  // ----- the invariant of all runs, cancellations included -----------------------------------------------

  ghost predicate Counted(c: Config, s: State) {
    && s.shared.counts.Keys == (set m <- c.models)
    && forall m <- c.models :: s.shared.counts[m] == InFlight(s, OfModel(c, m))
  }

  ghost predicate OnePlaceEach(c: Config, s: State) {
    forall i: nat :: Places(s, i) == if i < c.Total() then 1 else 0
  }

  ghost predicate Inv(c: Config, s: State) {
    && |s.workers| == c.Workers()
    && OnePlaceEach(c, s)
    && Counted(c, s)
    && s.shared.completed == |s.done|
    && |s.shared.pending| + InFlight(s, Each()) + |s.done| == c.Total()
    && InFlight(s, Each()) + Left(s.starter) <= c.Workers()
    && (s.shared.closed ==> |s.done| == c.Total())
  }

  lemma {:induction false} SumRange(a: nat, n: nat, i: nat)
    requires a <= n
    ensures Sum(seq(n - a, k requires k >= 0 => a + k), Only(i)) == if a <= i < n then 1 else 0
    decreases n - a
  {
    if a < n {
      var xs := seq(n - a, k requires k >= 0 => a + k);
      assert xs[1..] == seq(n - (a + 1), k requires k >= 0 => a + 1 + k);
      SumRange(a + 1, n, i);
    }
  }

  lemma {:induction false} NoneHeld(ws: seq<Worker>, g: Weight)
    requires forall w <- ws :: w.Waiting? || w.Exited?
    ensures HeldByWorkers(ws, g) == 0
  {
    if ws != [] { NoneHeld(ws[1..], g); }
  }

  lemma InitInv(c: Config)
    ensures Inv(c, Init(c))
  {
    var s := Init(c);
    forall i: nat ensures Places(s, i) == if i < c.Total() then 1 else 0 {
      SumRange(0, c.Total(), i);
      assert s.shared.pending == seq(c.Total() - 0, k requires k >= 0 => 0 + k);
      NoneHeld(s.workers, Only(i));
    }
    forall m | m in c.models ensures s.shared.counts[m] == InFlight(s, OfModel(c, m)) {
      NoneHeld(s.workers, OfModel(c, m));
    }
    NoneHeld(s.workers, Each());
  }

  /** Every task lies below the total, so its model is one that is counted. */
  lemma TaskInRange(c: Config, s: State, t: nat)
    requires OnePlaceEach(c, s)
    requires t in s.shared.pending || InFlight(s, Only(t)) > 0
    ensures t < c.Total() && c.ModelOf(t) in c.models
  {
    assert Places(s, t) == if t < c.Total() then 1 else 0;
    SumMember(s.shared.pending, t);
  }

  lemma CountsChange(c: Config, s: State, step: Step, m: string)
    requires Enabled(c, s, step) && m in s.shared.counts
    requires forall t :: Chosen(step) == Some(t) || Finished(s, step) == Some(t) ==> c.ModelOf(t) in s.shared.counts
    ensures var s' := Apply(c, s, step);
      && m in s'.shared.counts
      && s'.shared.counts[m]
           == s.shared.counts[m] + Taken(Chosen(step), OfModel(c, m)) - Taken(Finished(s, step), OfModel(c, m))
  {
  }

  lemma CountsKeys(c: Config, s: State, step: Step)
    requires Enabled(c, s, step)
    requires forall t :: Chosen(step) == Some(t) || Finished(s, step) == Some(t) ==> c.ModelOf(t) in s.shared.counts
    ensures Apply(c, s, step).shared.counts.Keys == s.shared.counts.Keys
  {
  }

  lemma MovedInRange(c: Config, s: State, step: Step)
    requires OnePlaceEach(c, s) && Enabled(c, s, step)
    ensures forall t :: Chosen(step) == Some(t) || Finished(s, step) == Some(t) ==> c.ModelOf(t) in c.models
  {
    if Chosen(step).Some? { TaskInRange(c, s, Chosen(step).value); }
    if Finished(s, step).Some? {
      var t := Finished(s, step).value;
      HeldUpdate(s.workers, step.w, Exited, Only(t));
      TaskInRange(c, s, t);
    }
  }

  lemma CountsStep(c: Config, s: State, step: Step)
    requires Inv(c, s) && Enabled(c, s, step)
    ensures Counted(c, Apply(c, s, step))
  {
    var s' := Apply(c, s, step);
    MovedInRange(c, s, step);
    forall m | m in c.models ensures s'.shared.counts[m] == InFlight(s', OfModel(c, m)) {
      CountsChange(c, s, step, m);
      Moves(c, s, step, OfModel(c, m));
    }
    CountsKeys(c, s, step);
  }

  lemma PlacesStep(c: Config, s: State, step: Step)
    requires OnePlaceEach(c, s) && Enabled(c, s, step)
    ensures OnePlaceEach(c, Apply(c, s, step))
  {
    var s' := Apply(c, s, step);
    forall i: nat ensures Places(s', i) == if i < c.Total() then 1 else 0 {
      Moves(c, s, step, Only(i));
      assert Places(s, i) == if i < c.Total() then 1 else 0;
    }
  }

  lemma TotalsStep(c: Config, s: State, step: Step)
    requires Inv(c, s) && Enabled(c, s, step)
    ensures var s' := Apply(c, s, step);
      && s'.shared.completed == |s'.done|
      && |s'.shared.pending| + InFlight(s', Each()) + |s'.done| == c.Total()
      && InFlight(s', Each()) + Left(s'.starter) <= c.Workers()
      && (s'.shared.closed ==> |s'.done| == c.Total())
  {
    var s' := Apply(c, s, step);
    Moves(c, s, step, Each());
    SumEach(s.shared.pending);
    SumEach(s'.shared.pending);
    if Finished(s, step).Some? { HeldUpdate(s.workers, step.w, Exited, Each()); }
  }

  lemma StepInv(c: Config, s: State, step: Step)
    requires Inv(c, s) && Enabled(c, s, step)
    ensures Inv(c, Apply(c, s, step))
  {
    CountsStep(c, s, step);
    PlacesStep(c, s, step);
    TotalsStep(c, s, step);
  }

  /** With every task done, nothing is pending or in flight. */
  lemma AllDone(c: Config, s: State)
    requires Inv(c, s) && |s.done| == c.Total()
    ensures s.shared.pending == [] && InFlight(s, Each()) == 0
  {
  }

  /** Conservation, the model counters and the bound on tasks in flight hold after every run. */
  lemma {:induction false} RunInv(c: Config, steps: seq<Step>)
    requires Exec(c, steps).Some?
    ensures Inv(c, Exec(c, steps).value)
    ensures InFlight(Exec(c, steps).value, Each()) <= c.parallel && InFlight(Exec(c, steps).value, Each()) <= |c.models|
    ensures |Exec(c, steps).value.workers| == if c.parallel <= |c.models| then c.parallel else |c.models|
  {
    if steps == [] {
      InitInv(c);
    } else {
      RunInv(c, steps[..|steps| - 1]);
      StepInv(c, Exec(c, steps[..|steps| - 1]).value, steps[|steps| - 1]);
    }
  }

  /** A send never waits for room in the channel and never finds it closed. */
  lemma SendNeverBlocks(c: Config, steps: seq<Step>)
    requires Exec(c, steps).Some?
    ensures var s := Exec(c, steps).value;
            s.starter.Offering? || (exists w <- s.workers :: w.Sending?) ==>
              !s.shared.closed && |s.shared.queue| < c.parallel && |s.shared.queue| < |c.models| && CanSend(c, s.shared)
  {
    RunInv(c, steps);
    var s := Exec(c, steps).value;
    SumEach(s.shared.queue);
    if exists w <- s.workers :: w.Sending? {
      var i :| 0 <= i < |s.workers| && s.workers[i].Sending?;
      HeldUpdate(s.workers, i, Exited, Each());
    }
    if s.shared.closed { AllDone(c, s); }
  }
}
