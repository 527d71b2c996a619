/** Runs in which no result is missing or cancelled: they spread over the models, never get stuck, and end with every
    task run once and the results in the order of the tasks. */
module SchedulerCleanRuns {
  import opened Sequences
  import opened Wrappers
  import opened Scheduler
  import opened SchedulerProofs

  // ----- spreading -----------------------------------------------------------------------------------

  /** No model has more than one task in flight beyond a model that still has a task pending. */
  ghost predicate Spread(c: Config, s: State) {
    forall t <- s.shared.pending, b <- c.models ::
      InFlight(s, OfModel(c, b)) <= InFlight(s, OfModel(c, c.ModelOf(t))) + 1
  }

  function EndedWeight(ws: seq<Worker>, g: Weight): nat {
    if ws == [] then 0 else (match ws[0] case Ended(t, _) => g(t) case _ => 0) + EndedWeight(ws[1..], g)
  }

  function Recorded(rs: seq<(nat, Log)>, g: Weight): nat {
    if rs == [] then 0 else g(rs[0].0) + Recorded(rs[1..], g)
  }

  ghost predicate ResultsMatch(s: State) {
    forall i: nat ::
      Recorded(s.shared.results, Only(i)) == Sum(s.done, Only(i)) + EndedWeight(s.workers, Only(i))
  }

  ghost predicate CleanInv(c: Config, s: State) {
    && Inv(c, s)
    && (forall w <- s.workers :: w.Ended? ==> Clean(w.log))
    && (forall w <- s.workers :: w.Exited? ==> s.shared.closed)
    && (s.shared.pending != [] ==> InFlight(s, Each()) + Left(s.starter) == c.Workers())
    && (0 < c.Total() == |s.done| ==> s.shared.closed)
    && Spread(c, s)
  }

  lemma {:induction false} EndedUpdate(ws: seq<Worker>, i: nat, w: Worker, g: Weight)
    requires i < |ws|
    ensures EndedWeight(ws[i := w], g) + EndedWeight([ws[i]], g) == EndedWeight(ws, g) + EndedWeight([w], g)
  {
    if i == 0 {
      assert ws[0 := w][1..] == ws[1..];
    } else {
      assert ws[i := w][1..] == ws[1..][i - 1 := w];
      EndedUpdate(ws[1..], i - 1, w, g);
    }
  }

  lemma {:induction false} RecordedAppend(rs: seq<(nat, Log)>, r: (nat, Log), g: Weight)
    ensures Recorded(rs + [r], g) == Recorded(rs, g) + g(r.0)
  {
    if rs == [] {
      assert rs + [r] == [r];
    } else {
      assert (rs + [r])[1..] == rs[1..] + [r];
      RecordedAppend(rs[1..], r, g);
    }
  }

  lemma ResultsStepFor(c: Config, s: State, step: Step, g: Weight)
    requires Enabled(c, s, step) && (step.RunEnds? ==> Clean(step.log))
    requires Recorded(s.shared.results, g) == Sum(s.done, g) + EndedWeight(s.workers, g)
    ensures var s' := Apply(c, s, step);
            Recorded(s'.shared.results, g) == Sum(s'.done, g) + EndedWeight(s'.workers, g)
  {
    var s' := Apply(c, s, step);
    match step
    case RunEnds(w, log) =>
      RecordedAppend(s.shared.results, (s.workers[w].task, log.value), g);
      EndedUpdate(s.workers, w, s'.workers[w], g);
    case Complete(w, _) =>
      SumAppend(s.done, s.workers[w].task, g);
      EndedUpdate(s.workers, w, s'.workers[w], g);
    case Receive(w) => EndedUpdate(s.workers, w, s'.workers[w], g);
    case Sent(w) => EndedUpdate(s.workers, w, s'.workers[w], g);
    case Leave(w) => EndedUpdate(s.workers, w, s'.workers[w], g);
    case _ =>
  }

  lemma ResultsStep(c: Config, s: State, step: Step)
    requires ResultsMatch(s) && Enabled(c, s, step) && (step.RunEnds? ==> Clean(step.log))
    ensures ResultsMatch(Apply(c, s, step))
  {
    var s' := Apply(c, s, step);
    forall i: nat
      ensures Recorded(s'.shared.results, Only(i)) == Sum(s'.done, Only(i)) + EndedWeight(s'.workers, Only(i))
    {
      ResultsStepFor(c, s, step, Only(i));
    }
  }

  /** When a task completes, the count of its model drops by one and the choice that follows restores the balance. */
  lemma SpreadStep(c: Config, s: State, step: Step)
    requires CleanInv(c, s) && Enabled(c, s, step)
    ensures Spread(c, Apply(c, s, step))
  {
    var s' := Apply(c, s, step);
    MovedInRange(c, s, step);
    Moves(c, s, step, Each());
    SumEach(s.shared.pending);
    SumEach(s'.shared.pending);
    if Chosen(step).Some? { WithoutKeeps(s.shared.pending, Chosen(step).value); }
    forall t, b | t in s'.shared.pending && b in c.models
      ensures InFlight(s', OfModel(c, b)) <= InFlight(s', OfModel(c, c.ModelOf(t))) + 1
    {
      SpreadFor(c, s, step, t, b);
    }
  }

  lemma SpreadFor(c: Config, s: State, step: Step, t: nat, b: string)
    requires CleanInv(c, s) && Enabled(c, s, step)
    requires t in s.shared.pending && t in Apply(c, s, step).shared.pending && b in c.models
    requires forall u :: Chosen(step) == Some(u) || Finished(s, step) == Some(u) ==> c.ModelOf(u) in c.models
    ensures var s' := Apply(c, s, step);
            InFlight(s', OfModel(c, b)) <= InFlight(s', OfModel(c, c.ModelOf(t))) + 1
  {
    var a := c.ModelOf(t);
    Moves(c, s, step, OfModel(c, a));
    Moves(c, s, step, OfModel(c, b));
    if Chosen(step).Some? {
      var u := Chosen(step).value;
      ChosenIsLeast(c, s, step, u, t);
      assert InFlight(s, OfModel(c, b)) <= InFlight(s, OfModel(c, c.ModelOf(u))) + 1;
    } else if Finished(s, step).Some? {
      NothingLeftToChoose(c, s, step);
      assert false;
    }
  }

  /** The model of the chosen task is used no more than that of any pending task, once the completed one is counted. */
  lemma ChosenIsLeast(c: Config, s: State, step: Step, u: nat, t: nat)
    requires Inv(c, s) && Enabled(c, s, step) && Chosen(step) == Some(u) && t in s.shared.pending
    requires forall v :: Chosen(step) == Some(v) || Finished(s, step) == Some(v) ==> c.ModelOf(v) in c.models
    ensures u in s.shared.pending
    ensures InFlight(s, OfModel(c, c.ModelOf(u))) - Taken(Finished(s, step), OfModel(c, c.ModelOf(u)))
            <= InFlight(s, OfModel(c, c.ModelOf(t))) - Taken(Finished(s, step), OfModel(c, c.ModelOf(t)))
  {
    SumMember(s.shared.pending, t);
    TaskInRange(c, s, t);
    var sh := if step.Complete? then Tracked(c, s.shared, s.workers[step.w].task) else s.shared;
    assert IsNext(c, sh, u);
    assert sh.counts[c.ModelOf(u)] <= sh.counts[c.ModelOf(t)];
  }

  lemma NothingLeftToChoose(c: Config, s: State, step: Step)
    requires CleanInv(c, s) && Enabled(c, s, step) && Chosen(step).None? && Finished(s, step).Some?
    ensures s.shared.pending == []
  {
    Moves(c, s, step, Each());
    SumEach(Apply(c, s, step).shared.pending);
    SumEach(s.shared.pending);
    HeldUpdate(s.workers, step.w, Exited, Each());
  }

  lemma CleanStep(c: Config, s: State, step: Step)
    requires CleanInv(c, s) && Enabled(c, s, step) && (step.RunEnds? ==> Clean(step.log))
    ensures CleanInv(c, Apply(c, s, step))
  {
    StepInv(c, s, step);
    SpreadStep(c, s, step);
    Moves(c, s, step, Each());
    SumEach(s.shared.pending);
    SumEach(Apply(c, s, step).shared.pending);
  }

  /** Spreading and the other facts about clean runs hold after every such run. */
  lemma {:induction false} CleanRunInv(c: Config, steps: seq<Step>)
    requires Exec(c, steps).Some? && CleanSteps(steps)
    ensures CleanInv(c, Exec(c, steps).value) && ResultsMatch(Exec(c, steps).value)
  {
    if steps == [] {
      InitInv(c);
      var s := Init(c);
      forall b | b in c.models ensures InFlight(s, OfModel(c, b)) == 0 { NoneHeld(s.workers, OfModel(c, b)); }
      forall t, b | t in s.shared.pending && b in c.models
        ensures InFlight(s, OfModel(c, b)) <= InFlight(s, OfModel(c, c.ModelOf(t))) + 1 {}
      NoneHeld(s.workers, Each());
      forall i: nat ensures EndedWeight(s.workers, Only(i)) == 0 { NoneEnded(s.workers, Only(i)); }
    } else {
      var n := |steps| - 1;
      var s := Exec(c, steps[..n]).value;
      CleanRunInv(c, steps[..n]);
      CleanStep(c, s, steps[n]);
      ResultsStep(c, s, steps[n]);
    }
  }

  lemma {:induction false} NoneEnded(ws: seq<Worker>, g: Weight)
    requires forall w <- ws :: !w.Ended?
    ensures EndedWeight(ws, g) == 0
  {
    if ws != [] { NoneEnded(ws[1..], g); }
  }

  /** While a model with a pending task has nothing in flight, no model has two tasks in flight. */
  lemma ModelsAreSpread(c: Config, steps: seq<Step>, t: nat, b: string)
    requires Exec(c, steps).Some? && CleanSteps(steps)
    requires t in Exec(c, steps).value.shared.pending && InFlight(Exec(c, steps).value, OfModel(c, c.ModelOf(t))) == 0
    requires b in c.models
    ensures InFlight(Exec(c, steps).value, OfModel(c, b)) <= 1
  {
    CleanRunInv(c, steps);
  }

  // ----- progress ------------------------------------------------------------------------------------

  function Rank(w: Worker): nat {
    match w case Waiting => 1 case Running(_) => 4 case Ended(_, _) => 3 case Sending(_) => 6 case Exited => 0
  }

  function Ranks(ws: seq<Worker>): nat {
    if ws == [] then 0 else Rank(ws[0]) + Ranks(ws[1..])
  }

  /** How many steps can still be taken, at most. */
  function Measure(s: State): nat {
    6 * |s.shared.pending| + 4 * |s.shared.queue| + Ranks(s.workers)
      + s.starter.left + if s.starter.Offering? then 5 else 0
  }

  lemma {:induction false} RanksUpdate(ws: seq<Worker>, i: nat, w: Worker)
    requires i < |ws|
    ensures Ranks(ws[i := w]) + Rank(ws[i]) == Ranks(ws) + Rank(w)
  {
    if i == 0 {
      assert ws[0 := w][1..] == ws[1..];
    } else {
      assert ws[i := w][1..] == ws[1..][i - 1 := w];
      RanksUpdate(ws[1..], i - 1, w);
    }
  }

  lemma {:induction false} WithoutShortens(xs: seq<nat>, t: nat)
    requires t in xs
    ensures |Without(xs, t)| == |xs| - 1
  {
    if xs[0] != t { WithoutShortens(xs[1..], t); }
  }

  lemma MeasureDrops(c: Config, s: State, step: Step)
    requires Enabled(c, s, step)
    ensures Measure(Apply(c, s, step)) < Measure(s)
  {
    var s' := Apply(c, s, step);
    if Chosen(step).Some? { WithoutShortens(s.shared.pending, Chosen(step).value); }
    match step
    case StartNext(_) =>
    case StartSent =>
    case _ => RanksUpdate(s.workers, step.w, s'.workers[step.w]);
  }

  lemma {:induction false} StepsBounded(c: Config, steps: seq<Step>)
    requires Exec(c, steps).Some?
    ensures |steps| + Measure(Exec(c, steps).value) <= Measure(Init(c))
  {
    if steps != [] {
      StepsBounded(c, steps[..|steps| - 1]);
      MeasureDrops(c, Exec(c, steps[..|steps| - 1]).value, steps[|steps| - 1]);
    }
  }

  lemma {:induction false} RanksOfIdle(n: nat)
    ensures Ranks(seq(n, _ => Waiting)) == n
  {
    if n > 0 {
      var ws := seq(n, _ => Waiting);
      assert ws[1..] == seq(n - 1, _ => Waiting);
      RanksOfIdle(n - 1);
    }
  }

  /** Every run is finite: six steps for each task and two for each worker are enough. */
  lemma RunsAreFinite(c: Config, steps: seq<Step>)
    requires Exec(c, steps).Some?
    ensures |steps| <= 6 * c.Total() + 2 * c.Workers()
  {
    StepsBounded(c, steps);
    RanksOfIdle(c.Workers());
  }

  /** Among the pending tasks there is always one to take. */
  lemma NextExists(c: Config, s: State) returns (t: nat)
    requires Inv(c, s) && s.shared.pending != []
    ensures IsNext(c, s.shared, t)
  {
    var sh := s.shared;
    forall u | u in sh.pending ensures c.ModelOf(u) in sh.counts {
      SumMember(sh.pending, u);
      TaskInRange(c, s, u);
    }
    var i := LeastPending(c, sh, |sh.pending|);
    t := sh.pending[i];
  }

  lemma {:induction false} LeastPending(c: Config, sh: Shared, n: nat) returns (i: nat)
    requires 0 < n <= |sh.pending| && forall u <- sh.pending :: c.ModelOf(u) in sh.counts
    ensures i < n && IsFirstOfModel(c, sh.pending, i)
    ensures forall j :: 0 <= j < n ==> sh.counts[c.ModelOf(sh.pending[i])] <= sh.counts[c.ModelOf(sh.pending[j])]
  {
    if n == 1 {
      i := 0;
    } else {
      i := LeastPending(c, sh, n - 1);
      if sh.counts[c.ModelOf(sh.pending[n - 1])] < sh.counts[c.ModelOf(sh.pending[i])] {
        i := n - 1;
      }
    }
  }

  /** The starter is through and every worker has left. */
  predicate Over(s: State) {
    s.starter == Ready(0) && forall w <- s.workers :: w.Exited?
  }

  /** A run that is not over can go on, without a missing or cancelled result. */
  lemma NeverStuck(c: Config, steps: seq<Step>) returns (step: Step)
    requires Exec(c, steps).Some? && CleanSteps(steps)
    requires !Over(Exec(c, steps).value)
    ensures Exec(c, steps + [step]).Some? && CleanSteps(steps + [step])
  {
    var s := Exec(c, steps).value;
    CleanRunInv(c, steps);
    SendNeverBlocks(c, steps);
    if s.starter.Offering? {
      step := StartSent;
    } else if s.starter.left > 0 {
      if s.shared.completed < c.Total() && s.shared.pending != [] {
        var t := NextExists(c, s);
        step := StartNext(Some(t));
      } else {
        step := StartNext(None);
      }
    } else {
      step := WorkerStep(c, s);
    }
    assert (steps + [step])[..|steps|] == steps;
  }

  lemma CompleteStep(c: Config, s: State, i: nat) returns (step: Step)
    requires Inv(c, s) && i < |s.workers| && s.workers[i].Ended?
    ensures Enabled(c, s, step) && step.Complete?
  {
    var w := s.workers[i];
    var sh1 := Tracked(c, s.shared, w.task);
    step := Complete(i, None);
    if Clean(w.log) && sh1.completed < c.Total() && s.shared.pending != [] {
      HeldUpdate(s.workers, i, Exited, Only(w.task));
      TaskInRange(c, s, w.task);
      forall u | u in s.shared.pending ensures c.ModelOf(u) in sh1.counts {
        SumMember(s.shared.pending, u);
        TaskInRange(c, s, u);
      }
      var j := LeastPending(c, sh1, |sh1.pending|);
      step := Complete(i, Some(sh1.pending[j]));
    }
  }

  lemma WorkerStep(c: Config, s: State) returns (step: Step)
    requires CleanInv(c, s) && s.starter == Ready(0) && !Over(s)
    requires (exists w <- s.workers :: w.Sending?) ==> CanSend(c, s.shared)
    ensures Enabled(c, s, step) && (step.RunEnds? ==> Clean(step.log))
  {
    var i :| 0 <= i < |s.workers| && !s.workers[i].Exited?;
    match s.workers[i] {
      case Running(_) => step := RunEnds(i, Some(Log(false, "")));
      case Ended(_, _) => step := CompleteStep(c, s, i);
      case Sending(_) => step := Sent(i);
      case Waiting =>
        if s.shared.queue != [] {
          step := Receive(i);
        } else if s.shared.closed {
          step := Leave(i);
        } else {
          step := BusyWorkerStep(c, s, i);
        }
    }
  }

  /** With the channel open and empty some worker is busy, since not every task is done. */
  lemma BusyWorkerStep(c: Config, s: State, i: nat) returns (step: Step)
    requires CleanInv(c, s) && s.starter == Ready(0) && i < |s.workers|
    requires s.shared.queue == [] && !s.shared.closed
    requires (exists w <- s.workers :: w.Sending?) ==> CanSend(c, s.shared)
    ensures Enabled(c, s, step) && (step.RunEnds? ==> Clean(step.log))
  {
    if HeldByWorkers(s.workers, Each()) == 0 {
      assert false;
    }
    var k := BusyWorker(s.workers);
    match s.workers[k] {
      case Running(_) => step := RunEnds(k, Some(Log(false, "")));
      case Ended(_, _) => step := CompleteStep(c, s, k);
      case Sending(_) => step := Sent(k);
    }
  }

  lemma {:induction false} BusyWorker(ws: seq<Worker>) returns (k: nat)
    requires HeldByWorkers(ws, Each()) > 0
    ensures k < |ws| && (ws[k].Running? || ws[k].Ended? || ws[k].Sending?)
  {
    if Held(ws[0], Each()) > 0 {
      k := 0;
    } else {
      k := BusyWorker(ws[1..]);
      k := k + 1;
    }
  }

  // ----- how a clean run ends ------------------------------------------------------------------------

  lemma {:induction false} NoneEndedIfExited(ws: seq<Worker>, g: Weight)
    requires forall w <- ws :: w.Exited?
    ensures HeldByWorkers(ws, g) == 0 && EndedWeight(ws, g) == 0
  {
    if ws != [] {
      assert ws[0] in ws;
      NoneEndedIfExited(ws[1..], g);
    }
  }

  /** A clean run that is over has run every task exactly once, recorded one result for each, and closed the channel. */
  lemma RunsEndComplete(c: Config, steps: seq<Step>)
    requires c.parallel > 0
    requires Exec(c, steps).Some? && CleanSteps(steps) && Over(Exec(c, steps).value)
    ensures var s := Exec(c, steps).value;
      && s.shared.pending == [] && s.shared.queue == []
      && (forall i: nat :: Sum(s.done, Only(i)) == if i < c.Total() then 1 else 0)
      && (forall i: nat :: Recorded(s.shared.results, Only(i)) == if i < c.Total() then 1 else 0)
      && (c.Total() > 0 ==> s.shared.closed)
  {
    var s := Exec(c, steps).value;
    CleanRunInv(c, steps);
    if c.Total() > 0 {
      assert s.workers[0].Exited? && s.workers[0] in s.workers;
    }
    AllDone(c, s);
    SumEach(s.shared.queue);
    forall i: nat
      ensures Sum(s.done, Only(i)) == if i < c.Total() then 1 else 0
      ensures Recorded(s.shared.results, Only(i)) == if i < c.Total() then 1 else 0
    {
      assert Places(s, i) == if i < c.Total() then 1 else 0;
      NoneEndedIfExited(s.workers, Only(i));
    }
  }

  // ----- the returned list -----------------------------------------------------------------------------

  predicate SortedByIndex(rs: seq<(nat, Log)>) {
    forall i, j :: 0 <= i < j < |rs| ==> rs[i].0 <= rs[j].0
  }

  lemma {:induction false} RecordedSame(a: seq<(nat, Log)>, b: seq<(nat, Log)>, g: Weight)
    requires multiset(a) == multiset(b)
    ensures Recorded(a, g) == Recorded(b, g)
    decreases |a|
  {
    if a == [] {
      assert |b| == |multiset(b)| == 0;
    } else {
      var k := Position(b, a[0]);
      RemoveOne(a, 0);
      RemoveOne(b, k);
      assert RemoveAt(a, 0) == a[1..];
      assert multiset(a[1..]) == multiset(a) - multiset{a[0]} == multiset(RemoveAt(b, k));
      RecordedSame(a[1..], b[..k] + b[k + 1..], g);
      RecordedDrop(b, k, g);
    }
  }

  lemma {:induction false} RecordedDrop(b: seq<(nat, Log)>, k: nat, g: Weight)
    requires k < |b|
    ensures Recorded(b, g) == g(b[k].0) + Recorded(b[..k] + b[k + 1..], g)
  {
    var rest := b[..k] + b[k + 1..];
    if k == 0 {
      assert rest == b[1..];
    } else {
      RecordedDrop(b[1..], k - 1, g);
      assert rest[1..] == b[1..][..k - 1] + b[1..][k..];
    }
  }

  lemma {:induction false} RecordedOnce(rs: seq<(nat, Log)>, i: nat, t: nat)
    requires i < |rs| && rs[i].0 == t
    ensures Recorded(rs, Only(t)) >= 1
    ensures forall j :: 0 <= j < |rs| && j != i && rs[j].0 == t ==> Recorded(rs, Only(t)) >= 2
  {
    if i > 0 {
      RecordedOnce(rs[1..], i - 1, t);
      assert forall j :: 0 < j < |rs| ==> rs[j] == rs[1..][j - 1];
    } else {
      forall j | 0 < j < |rs| && rs[j].0 == t ensures Recorded(rs, Only(t)) >= 2 {
        RecordedOnce(rs[1..], j - 1, t);
      }
    }
  }

  lemma RecordedTwice(rs: seq<(nat, Log)>, i: nat, j: nat)
    requires i < j < |rs| && rs[i].0 == rs[j].0
    ensures Recorded(rs, Only(rs[i].0)) >= 2
  {
    RecordedOnce(rs, i, rs[i].0);
  }

  lemma {:induction false} RecordedMember(rs: seq<(nat, Log)>, t: nat)
    requires Recorded(rs, Only(t)) > 0
    ensures exists i :: 0 <= i < |rs| && rs[i].0 == t
  {
    if rs[0].0 != t {
      RecordedMember(rs[1..], t);
      var i :| 0 <= i < |rs[1..]| && rs[1..][i].0 == t;
      assert rs[i + 1].0 == t;
    }
  }

  ghost predicate RecordsOneEach(rs: seq<(nat, Log)>, n: nat) {
    forall t: nat :: Recorded(rs, Only(t)) == if t < n then 1 else 0
  }

  lemma OneEach(rs: seq<(nat, Log)>, n: nat)
    requires RecordsOneEach(rs, n)
    ensures forall i, j :: 0 <= i < |rs| && 0 <= j < |rs| && i != j ==> rs[i].0 != rs[j].0
    ensures forall i :: 0 <= i < |rs| ==> rs[i].0 < n
  {
    forall i | 0 <= i < |rs|
      ensures rs[i].0 < n && forall j :: 0 <= j < |rs| && i != j ==> rs[i].0 != rs[j].0
    {
      RecordedOnce(rs, i, rs[i].0);
      assert Recorded(rs, Only(rs[i].0)) == if rs[i].0 < n then 1 else 0;
    }
  }

  lemma {:induction false} SortedPrefix(rs: seq<(nat, Log)>, n: nat, m: nat)
    requires SortedByIndex(rs) && RecordsOneEach(rs, n) && m <= n
    ensures m <= |rs| && forall i :: 0 <= i < m ==> rs[i].0 == i
  {
    if m > 0 {
      SortedPrefix(rs, n, m - 1);
      OneEach(rs, n);
      assert Recorded(rs, Only(m - 1)) == 1;
      RecordedMember(rs, m - 1);
      var k :| 0 <= k < |rs| && rs[k].0 == m - 1;
      assert k >= m - 1 && rs[m - 1].0 <= rs[k].0;
      if m > 1 { assert rs[m - 2].0 <= rs[m - 1].0; }
    }
  }

  /** Sorted by index, a list that records each of n tasks once has task i at position i. */
  lemma SortedIsIdentity(rs: seq<(nat, Log)>, n: nat)
    requires SortedByIndex(rs) && RecordsOneEach(rs, n)
    ensures |rs| == n && forall i :: 0 <= i < n ==> rs[i].0 == i
  {
    SortedPrefix(rs, n, n);
    if |rs| > n {
      var t := rs[n].0;
      RecordedOnce(rs, n, t);
      assert Recorded(rs, Only(t)) == if t < n then 1 else 0;
      RecordedTwice(rs, t, n);
      assert false;
    }
  }

  /**
   The list that run_multiple returns: whatever the order of completion, one result for each task, in the order of the
   tasks, each of them one that its own run produced.
   */
  lemma ResultsInTaskOrder(c: Config, steps: seq<Step>, rs: seq<(nat, Log)>)
    requires c.parallel > 0
    requires Exec(c, steps).Some? && CleanSteps(steps) && Over(Exec(c, steps).value)
    requires SortedByIndex(rs) && multiset(rs) == multiset(Exec(c, steps).value.shared.results)
    ensures |rs| == c.Total()
    ensures forall i :: 0 <= i < |rs| ==> rs[i].0 == i && RunEndedWith(c, steps, i, rs[i].1)
  {
    var s := Exec(c, steps).value;
    RunsEndComplete(c, steps);
    forall t: nat ensures Recorded(rs, Only(t)) == if t < c.Total() then 1 else 0 {
      RecordedSame(rs, s.shared.results, Only(t));
    }
    SortedIsIdentity(rs, c.Total());
    forall i | 0 <= i < |rs| ensures RunEndedWith(c, steps, i, rs[i].1) {
      assert rs[i] in multiset(rs);
      ResultsAreOwn(c, steps, i, rs[i].1);
    }
  }

  /** At some step of the run, a worker that was running task t ended with this log. */
  ghost predicate RunEndedWith(c: Config, steps: seq<Step>, t: nat, log: Log) {
    exists k :: 0 <= k < |steps| && EndsTask(c, steps, k, t, log)
  }

  ghost predicate EndsTask(c: Config, steps: seq<Step>, k: nat, t: nat, log: Log)
    requires k < |steps|
  {
    var s := Exec(c, steps[..k]);
    && s.Some? && steps[k].RunEnds? && steps[k].log == Some(log)
    && steps[k].w < |s.value.workers| && s.value.workers[steps[k].w] == Running(t)
  }

  lemma {:induction false} ResultsAreOwn(c: Config, steps: seq<Step>, t: nat, log: Log)
    requires Exec(c, steps).Some? && (t, log) in Exec(c, steps).value.shared.results
    ensures RunEndedWith(c, steps, t, log)
  {
    var n := |steps| - 1;
    var prefix := steps[..n];
    var s := Exec(c, prefix).value;
    if (t, log) in s.shared.results {
      ResultsAreOwn(c, prefix, t, log);
      var k :| 0 <= k < |prefix| && EndsTask(c, prefix, k, t, log);
      assert prefix[..k] == steps[..k];
      assert EndsTask(c, steps, k, t, log);
    } else {
      assert EndsTask(c, steps, n, t, log);
    }
  }
}
