/**
 The scheduler that runs several tasks at once and spreads them over models: workers, one starter, a bounded channel
 and a count of the tasks in flight for each model. A step is the code between two awaits.
 */
module Scheduler {
  import opened Wrappers

  /** Task i runs on models[i]. */
  datatype Config = Config(models: seq<string>, parallel: nat) {
    function Total(): nat { |models| }
    function Workers(): nat { if parallel <= |models| then parallel else |models| }
    function ModelOf(t: nat): string { if t < |models| then models[t] else "" }
  }

  datatype Log = Log(cancelled: bool, body: string)

  /** The variables that the workers and the starter share. */
  datatype Shared = Shared(
    pending: seq<nat>, counts: map<string, int>, completed: int,
    results: seq<(nat, Log)>, queue: seq<nat>, closed: bool)

  datatype Worker =
    | Waiting
    | Running(task: nat)
    | Ended(task: nat, log: Option<Log>)
    | Sending(task: nat)
    | Exited

  /** The starter makes `left` more calls; Offering waits for the channel to take a task. */
  datatype Starter = Ready(left: nat) | Offering(left: nat, task: nat)

  /** `done` records the completed tasks in order of completion. */
  datatype State = State(shared: Shared, starter: Starter, workers: seq<Worker>, done: seq<nat>)

  // ----- choosing the next task ----------------------------------------------------------------------

  /** The first pending task of its model, a model that is used least among those with a pending task. */
  predicate IsNext(c: Config, sh: Shared, t: nat) {
    && (forall u <- sh.pending :: c.ModelOf(u) in sh.counts)
    && (exists i :: 0 <= i < |sh.pending| && sh.pending[i] == t && IsFirstOfModel(c, sh.pending, i))
    && (forall u <- sh.pending :: sh.counts[c.ModelOf(t)] <= sh.counts[c.ModelOf(u)])
  }

  predicate IsFirstOfModel(c: Config, pending: seq<nat>, i: nat)
    requires i < |pending|
  {
    forall j :: 0 <= j < i ==> c.ModelOf(pending[j]) != c.ModelOf(pending[i])
  }

  /** The possible outcomes of enque_next_task up to its send: a least-used model is chosen arbitrarily among equals. */
  predicate CanTake(c: Config, sh: Shared, t: Option<nat>) {
    if sh.completed < c.Total() && sh.pending != [] then t.Some? && IsNext(c, sh, t.value) else t.None?
  }

  function Without(xs: seq<nat>, t: nat): seq<nat> {
    if xs == [] then [] else if xs[0] == t then xs[1..] else [xs[0]] + Without(xs[1..], t)
  }

  function AddCount(counts: map<string, int>, m: string, delta: int): map<string, int> {
    counts[m := (if m in counts then counts[m] else 0) + delta]
  }

  function Take(c: Config, sh: Shared, t: Option<nat>): Shared {
    match t
    case None => sh
    case Some(u) => sh.(pending := Without(sh.pending, u), counts := AddCount(sh.counts, c.ModelOf(u), 1))
  }

  // ----- completing a task ---------------------------------------------------------------------------

  predicate Clean(log: Option<Log>) {
    log.Some? && !log.value.cancelled
  }

  function Tracked(c: Config, sh: Shared, task: nat): Shared {
    sh.(completed := sh.completed + 1, counts := AddCount(sh.counts, c.ModelOf(task), -1))
  }

  /** The choices open to a worker whose task has ended. */
  predicate CanComplete(c: Config, sh: Shared, task: nat, log: Option<Log>, t: Option<nat>) {
    if Clean(log) && sh.completed + 1 < c.Total() then CanTake(c, Tracked(c, sh, task), t) else t.None?
  }

  function CompleteShared(c: Config, sh: Shared, task: nat, log: Option<Log>, t: Option<nat>): Shared {
    var sh1 := Tracked(c, sh, task);
    if !Clean(log) then sh1
    else if sh1.completed < c.Total() then Take(c, sh1, t)
    else if sh1.completed == c.Total() then sh1.(closed := true)
    else sh1
  }

  function CompleteWorker(log: Option<Log>, t: Option<nat>): Worker {
    if !Clean(log) then Exited else match t case Some(u) => Sending(u) case None => Waiting
  }

  // ----- steps ---------------------------------------------------------------------------------------

  datatype Step =
    | StartNext(t: Option<nat>)
    | StartSent
    | Receive(w: nat)
    | RunEnds(w: nat, log: Option<Log>)
    | Complete(w: nat, t: Option<nat>)
    | Sent(w: nat)
    | Leave(w: nat)

  predicate CanSend(c: Config, sh: Shared) {
    !sh.closed && |sh.queue| < 2 * c.parallel
  }

  predicate Enabled(c: Config, s: State, step: Step) {
    match step
    case StartNext(t) => s.starter.Ready? && s.starter.left > 0 && CanTake(c, s.shared, t)
    case StartSent => s.starter.Offering? && CanSend(c, s.shared)
    case Receive(w) => w < |s.workers| && s.workers[w].Waiting? && s.shared.queue != []
    case RunEnds(w, _) => w < |s.workers| && s.workers[w].Running?
    case Complete(w, t) =>
      w < |s.workers| && s.workers[w].Ended? && CanComplete(c, s.shared, s.workers[w].task, s.workers[w].log, t)
    case Sent(w) => w < |s.workers| && s.workers[w].Sending? && CanSend(c, s.shared)
    case Leave(w) => w < |s.workers| && s.workers[w].Waiting? && s.shared.closed && s.shared.queue == []
  }

  function Apply(c: Config, s: State, step: Step): State
    requires Enabled(c, s, step)
  {
    var sh := s.shared;
    match step
    case StartNext(t) =>
      s.(shared := Take(c, sh, t),
         starter := match t case Some(u) => Offering(s.starter.left - 1, u) case None => Ready(s.starter.left - 1))
    case StartSent =>
      s.(shared := sh.(queue := sh.queue + [s.starter.task]), starter := Ready(s.starter.left))
    case Receive(w) =>
      s.(shared := sh.(queue := sh.queue[1..]), workers := s.workers[w := Running(sh.queue[0])])
    case RunEnds(w, log) =>
      var t := s.workers[w].task;
      s.(shared := sh.(results := if log.Some? then sh.results + [(t, log.value)] else sh.results),
         workers := s.workers[w := Ended(t, log)])
    case Complete(w, t) =>
      var task, log := s.workers[w].task, s.workers[w].log;
      s.(shared := CompleteShared(c, sh, task, log, t),
         workers := s.workers[w := CompleteWorker(log, t)],
         done := s.done + [task])
    case Sent(w) =>
      s.(shared := sh.(queue := sh.queue + [s.workers[w].task]), workers := s.workers[w := Waiting])
    case Leave(w) => s.(workers := s.workers[w := Exited])
  }

  function Init(c: Config): State {
    State(
      Shared(seq(c.Total(), i requires i >= 0 => i), map m | m in c.models :: 0, 0, [], [], false),
      Ready(c.Workers()), seq(c.Workers(), _ => Waiting), [])
  }

  /** The state after a sequence of steps; None when one of them could not be taken. */
  function Exec(c: Config, steps: seq<Step>): Option<State> {
    if steps == [] then Some(Init(c))
    else match Exec(c, steps[..|steps| - 1])
         case None => None
         case Some(s) => if Enabled(c, s, steps[|steps| - 1]) then Some(Apply(c, s, steps[|steps| - 1])) else None
  }

  /** No result is missing or cancelled. */
  predicate CleanSteps(steps: seq<Step>) {
    forall st <- steps :: st.RunEnds? ==> Clean(st.log)
  }

  // ----- the code of one step ------------------------------------------------------------------------

  /** The shared variables as run_multiple keeps them, and its code between awaits. */
  class RunMultiple {
    const c: Config
    var pendingTasks: seq<nat>
    var modelCounts: map<string, int>
    var tasksCompleted: int
    var results: seq<(nat, Log)>
    var channel: seq<nat>
    var closed: bool

    function View(): Shared
      reads this
    {
      Shared(pendingTasks, modelCounts, tasksCompleted, results, channel, closed)
    }

    ghost predicate Valid()
      reads this
    {
      forall t <- pendingTasks :: c.ModelOf(t) in modelCounts
    }

    constructor (c: Config)
      ensures this.c == c && Valid() && View() == Init(c).shared
      ensures |pendingTasks| == c.Total() && forall i :: 0 <= i < c.Total() ==> pendingTasks[i] == i
      ensures forall m :: m in modelCounts <==> m in c.models
      ensures forall m <- modelCounts :: modelCounts[m] == 0
      ensures tasksCompleted == 0 && results == [] && channel == [] && !closed
    {
      this.c := c;
      pendingTasks := seq(c.Total(), i requires i >= 0 => i);
      modelCounts := map m | m in c.models :: 0;
      tasksCompleted, results, channel, closed := 0, [], [], false;
      new;
      forall t | t in pendingTasks ensures c.ModelOf(t) in modelCounts { assert c.models[t] in c.models; }
    }

    /** The models that have a pending task. */
    method ModelsWithPending() returns (ms: set<string>)
      requires Valid()
      ensures forall m :: m in ms <==> exists t <- pendingTasks :: c.ModelOf(t) == m
    {
      ms := {};
      for i := 0 to |pendingTasks|
        invariant forall m :: m in ms <==> exists t <- pendingTasks[..i] :: c.ModelOf(t) == m
      {
        assert pendingTasks[..i + 1] == pendingTasks[..i] + [pendingTasks[i]];
        ms := ms + {c.ModelOf(pendingTasks[i])};
      }
      assert pendingTasks[..|pendingTasks|] == pendingTasks;
    }

    /** One of the least used of a set of models. */
    method LeastUsed(ms: set<string>) returns (m: string)
      requires ms != {} && forall x <- ms :: x in modelCounts
      ensures m in ms && forall x <- ms :: modelCounts[m] <= modelCounts[x]
    {
      m :| m in ms;
      var rest := ms - {m};
      while rest != {}
        invariant rest <= ms && m in ms
        invariant forall x <- ms :: x in rest || modelCounts[m] <= modelCounts[x]
      {
        var x :| x in rest;
        if modelCounts[x] < modelCounts[m] { m := x; }
        rest := rest - {x};
      }
    }

    /** The first pending task of a model. */
    method FirstOfModel(m: string) returns (i: nat)
      requires Valid()
      requires exists t <- pendingTasks :: c.ModelOf(t) == m
      ensures i < |pendingTasks| && c.ModelOf(pendingTasks[i]) == m && IsFirstOfModel(c, pendingTasks, i)
    {
      i := 0;
      while c.ModelOf(pendingTasks[i]) != m
        invariant 0 <= i < |pendingTasks|
        invariant forall j :: 0 <= j < i ==> c.ModelOf(pendingTasks[j]) != m
        invariant exists u <- pendingTasks[i..] :: c.ModelOf(u) == m
        decreases |pendingTasks| - i
      {
        assert pendingTasks[i..] == [pendingTasks[i]] + pendingTasks[i + 1..];
        i := i + 1;
      }
    }

    /** enque_next_task up to its send. */
    method SelectNext() returns (t: Option<nat>)
      requires Valid()
      modifies this
      ensures Valid()
      ensures CanTake(c, old(View()), t) && View() == Take(c, old(View()), t)
      ensures t.Some? ==> exists i :: TakenOut(old(pendingTasks), i, t.value, pendingTasks)
    {
      if tasksCompleted >= c.Total() { return None; }
      var withPending := ModelsWithPending();
      assert pendingTasks != [] ==> pendingTasks[0] in pendingTasks && c.ModelOf(pendingTasks[0]) in withPending;
      if withPending == {} { return None; }
      var m := LeastUsed(withPending);
      var i := FirstOfModel(m);
      var u := pendingTasks[i];
      assert forall x <- pendingTasks :: c.ModelOf(x) in withPending;
      WithoutKeeps(pendingTasks, u);
      var j := WithoutIs(pendingTasks, u);
      pendingTasks := Without(pendingTasks, u);
      modelCounts := AddCount(modelCounts, m, 1);
      t := Some(u);
    }

    /** The end of a task: its result, if there is one, is stored whatever its status. */
    method RunEnds(task: nat, log: Option<Log>)
      requires Valid()
      modifies this`results
      ensures Valid()
      ensures forall s: State, w: nat :: s.shared == old(View()) && w < |s.workers| && s.workers[w] == Running(task) ==>
                Enabled(c, s, Step.RunEnds(w, log)) && View() == Apply(c, s, Step.RunEnds(w, log)).shared
      ensures log.Some? ==> results == old(results) + [(task, log.value)]
      ensures log.None? ==> results == old(results)
    {
      if log.Some? { results := results + [(task, log.value)]; }
    }

    /** From the end of a task to the next await of its worker: leave, or choose the next task, or close. */
    method Complete(task: nat, log: Option<Log>) returns (worker: Worker, ghost t: Option<nat>)
      requires Valid()
      modifies this
      ensures Valid()
      ensures CanComplete(c, old(View()), task, log, t)
      ensures View() == CompleteShared(c, old(View()), task, log, t) && worker == CompleteWorker(log, t)
      ensures worker.Exited? <==> log.None? || log.value.cancelled
      ensures closed <==> old(closed) || (log.Some? && !log.value.cancelled && old(tasksCompleted) + 1 == c.Total())
      ensures tasksCompleted == old(tasksCompleted) + 1 && results == old(results) && channel == old(channel)
    {
      tasksCompleted := tasksCompleted + 1;
      modelCounts := AddCount(modelCounts, c.ModelOf(task), -1);
      t := None;
      if log.None? || log.value.cancelled { return Exited, None; }
      worker := Waiting;
      if tasksCompleted < c.Total() {
        var next := SelectNext();
        t := next;
        if next.Some? { worker := Sending(next.value); }
      } else if tasksCompleted == c.Total() {
        closed := true;
      }
    }
  }

  /** xs' is xs without the first t, which is at i. */
  predicate TakenOut(xs: seq<nat>, i: int, t: nat, xs': seq<nat>) {
    0 <= i < |xs| && xs[i] == t && t !in xs[..i] && xs' == xs[..i] + xs[i + 1..]
  }

  lemma {:induction false} WithoutIs(xs: seq<nat>, t: nat) returns (i: nat)
    requires t in xs
    ensures TakenOut(xs, i, t, Without(xs, t))
  {
    if xs[0] == t {
      i := 0;
      TakenFirst(xs);
    } else {
      var j := WithoutIs(xs[1..], t);
      i := j + 1;
      TakenLater(xs[0], xs[1..], j, t, Without(xs[1..], t));
      assert [xs[0]] + xs[1..] == xs;
    }
  }

  lemma TakenFirst(xs: seq<nat>)
    requires xs != []
    ensures TakenOut(xs, 0, xs[0], xs[1..])
  {
    assert xs[..0] + xs[1..] == xs[1..];
  }

  lemma TakenLater(x: nat, rest: seq<nat>, j: nat, t: nat, rest': seq<nat>)
    requires TakenOut(rest, j, t, rest') && x != t
    ensures TakenOut([x] + rest, j + 1, t, [x] + rest')
  {
    assert ([x] + rest)[..j + 1] == [x] + rest[..j];
    assert ([x] + rest)[j + 2..] == rest[j + 1..];
  }

  lemma {:induction false} WithoutKeeps(xs: seq<nat>, t: nat)
    ensures forall x <- Without(xs, t) :: x in xs
  {
    if xs != [] && xs[0] != t { WithoutKeeps(xs[1..], t); }
  }
}
