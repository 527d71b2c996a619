/** What holds over any sequence of attempts, re-invocations and cleanups on one log directory. */
module EvalSetRuns {
  import opened Sequences
  import opened Wrappers
  import opened EvalSet
  import opened EvalSetCode

  // ----- whole runs ---------------------------------------------------------------------------------------------

  /** An attempt, with any arguments and any outcome of eval; the listing order afterwards is arbitrary. */
  ghost predicate Attempt(files: seq<LogFile>, files': seq<LogFile>, args: Args, stuck: set<string>,
                          written: seq<LogFile>, which: seq<nat>) {
    && Validated(args, files).Success?
    && WrittenBy(files, Requests(args, files), written, which)
    && multiset(files') == multiset(FilesBeforeRun(args, files, stuck) + written)
  }

  ghost predicate Sweep(files: seq<LogFile>, files': seq<LogFile>, taskIds: set<string>, stuck: set<string>) {
    multiset(files') == multiset(Cleaned(files, Filter(files, TaskIdIn(taskIds)), stuck))
  }

  ghost predicate Step(files: seq<LogFile>, files': seq<LogFile>) {
    || (exists args, stuck, written, which :: Attempt(files, files', args, stuck, written, which))
    || (exists taskIds, stuck :: Sweep(files, files', taskIds, stuck))
  }

  /** The contents of the directory over time, from an empty one. */
  ghost predicate Run(dirs: seq<seq<LogFile>>) {
    dirs != [] && dirs[0] == [] && forall i :: 0 <= i < |dirs| - 1 ==> Step(dirs[i], dirs[i + 1])
  }

  /** Two logs are of the same task exactly when they carry the same task id. */
  ghost predicate OneIdPerTask(files: seq<LogFile>) {
    forall a <- files, b <- files :: a.ident == b.ident <==> a.taskId == b.taskId
  }

  // ----- one task id per task --------------------------------------------------------------------------------------

  lemma IdentsMember(logs: seq<LogFile>, ident: string)
    ensures ident in Idents(logs) <==> exists f <- logs :: f.ident == ident
  {
    if exists f <- logs :: f.ident == ident {
      var i :| 0 <= i < |logs| && logs[i].ident == ident;
      assert Idents(logs)[i] == ident;
    }
  }

  lemma {:induction false} LogOfFinds(failed: seq<LogFile>, ident: string)
    ensures LogOf(failed, ident).Some? <==> ident in Idents(failed)
    ensures LogOf(failed, ident).Some? ==>
              LogOf(failed, ident).value in failed && LogOf(failed, ident).value.ident == ident
  {
    if failed != [] {
      LogOfFinds(failed[1..], ident);
      assert Idents(failed) == [failed[0].ident] + Idents(failed[1..]);
    }
  }

  lemma SubsetKeeps(files: seq<LogFile>, sub: seq<LogFile>)
    requires OneIdPerTask(files) && forall f <- sub :: f in files
    ensures OneIdPerTask(sub)
  {
  }

  lemma CleanedSubset(files: seq<LogFile>, logs: seq<LogFile>, stuck: set<string>)
    ensures forall f <- Cleaned(files, logs, stuck) :: f in files
  {
    FilterMember(files, Survives(logs, stuck));
  }

  /** The id given to request i belongs to its task and to no other: an existing one for a retry, else none exists. */
  lemma RequestIds(args: Args, files: seq<LogFile>, i: nat)
    requires Validated(args, files).Success? && OneIdPerTask(files) && i < |Requests(args, files)|
    ensures var r := Requests(args, files)[i];
      && r.task in args.tasks
      && match r.taskId
         case Some(id) => exists l <- files :: l.ident == r.task.ident && l.taskId == id
         case None => forall f <- files :: f.ident != r.task.ident
  {
    var logs := Validated(args, files).value;
    var pending := Pending(args.tasks, logs);
    var r := Requests(args, files)[i];
    FilterMember(args.tasks, TaskNotIn(Idents(logs)));
    if pending != [] {
      assert r.task in pending;
      assert r.task in args.tasks;
      TaskIdentIn(args.tasks, r.task);
      FilterMember(files, IdentIn(TaskIdents(args.tasks)));
      IdentsMember(logs, r.task.ident);
    } else {
      var failed := IncompleteLogs(args, logs);
      FilterMember(args.tasks, TaskIn(Idents(failed)));
      assert r.task in FailedTasks(args.tasks, failed);
      LogOfFinds(failed, r.task.ident);
      FilterMember(LatestLogs(logs), IsIncomplete(args));
      LatestIsLatest(logs);
      ValidatedKnown(args, files);
    }
  }

  lemma TaskIdentIn(tasks: seq<Task>, t: Task)
    requires t in tasks
    ensures t.ident in TaskIdents(tasks)
  {
    var i :| 0 <= i < |tasks| && tasks[i] == t;
    assert TaskIdents(tasks)[i] == t.ident;
  }

  lemma {:induction false} FilterDistinct(tasks: seq<Task>, keep: Task -> bool)
    requires Distinct(TaskIdents(tasks))
    ensures Distinct(TaskIdents(Filter(tasks, keep)))
  {
    if tasks != [] {
      var rest := tasks[1..];
      assert TaskIdents(tasks)[1..] == TaskIdents(rest);
      FilterDistinct(rest, keep);
      FilterMember(rest, keep);
      forall t | t in rest ensures t.ident != tasks[0].ident {
        var i :| 0 <= i < |rest| && rest[i] == t;
        assert TaskIdents(tasks)[i + 1] != TaskIdents(tasks)[0];
      }
      var tail := Filter(rest, keep);
      if keep(tasks[0]) {
        assert Filter(tasks, keep) == [tasks[0]] + tail;
        assert TaskIdents(Filter(tasks, keep)) == [tasks[0].ident] + TaskIdents(tail);
        forall j | 0 <= j < |tail| ensures TaskIdents(tail)[j] != tasks[0].ident { assert tail[j] in tail; }
      } else {
        assert Filter(tasks, keep) == tail;
      }
    }
  }

  lemma RequestsDistinct(args: Args, files: seq<LogFile>, i: nat, j: nat)
    requires Validated(args, files).Success?
    requires i < |Requests(args, files)| && j < |Requests(args, files)| && i != j
    ensures Requests(args, files)[i].task.ident != Requests(args, files)[j].task.ident
  {
    var logs := Validated(args, files).value;
    var tasks := if Pending(args.tasks, logs) != [] then Pending(args.tasks, logs)
                 else FailedTasks(args.tasks, IncompleteLogs(args, logs));
    FilterDistinct(args.tasks, TaskNotIn(Idents(logs)));
    FilterDistinct(args.tasks, TaskIn(Idents(IncompleteLogs(args, logs))));
    assert TaskIdents(tasks)[i] != TaskIdents(tasks)[j];
  }

  lemma AttemptKeepsIds(files: seq<LogFile>, args: Args, stuck: set<string>, written: seq<LogFile>, which: seq<nat>)
    requires OneIdPerTask(files) && Validated(args, files).Success?
    requires WrittenBy(files, Requests(args, files), written, which)
    ensures OneIdPerTask(files + written)
  {
    var requests := Requests(args, files);
    forall i, f | 0 <= i < |written| && f in files
      ensures f.ident == written[i].ident <==> f.taskId == written[i].taskId
    {
      assert Answers(files, requests, written, which, i);
      RequestIds(args, files, which[i]);
    }
    forall i, j | 0 <= i < |written| && 0 <= j < |written| && i != j
      ensures written[i].ident != written[j].ident && written[i].taskId != written[j].taskId
    {
      WrittenDiffer(args, files, written, which, i, j);
    }
  }

  /** No two logs of one attempt are of the same task, or have the same id. */
  lemma WrittenDiffer(args: Args, files: seq<LogFile>, written: seq<LogFile>, which: seq<nat>, i: nat, j: nat)
    requires OneIdPerTask(files) && Validated(args, files).Success?
    requires WrittenBy(files, Requests(args, files), written, which)
    requires i < |written| && j < |written| && i != j
    ensures written[i].ident != written[j].ident && written[i].taskId != written[j].taskId
  {
    var requests := Requests(args, files);
    assert Answers(files, requests, written, which, i) && Answers(files, requests, written, which, j);
    assert which[i] != which[j];
    RequestsDistinct(args, files, which[i], which[j]);
    RequestIds(args, files, which[i]);
    RequestIds(args, files, which[j]);
  }

  lemma SameMembers(a: seq<LogFile>, b: seq<LogFile>)
    requires multiset(a) == multiset(b)
    ensures forall f :: f in a <==> f in b
  {
    assert forall f :: f in a <==> f in multiset(a);
    assert forall f :: f in b <==> f in multiset(b);
  }

  lemma BeforeRunSubset(args: Args, files: seq<LogFile>, stuck: set<string>)
    ensures forall f <- FilesBeforeRun(args, files, stuck) :: f in files
  {
    if Validated(args, files).Success? { CleanedSubset(files, Validated(args, files).value, stuck); }
  }

  lemma StepKeepsIds(files: seq<LogFile>, files': seq<LogFile>)
    requires OneIdPerTask(files) && Step(files, files')
    ensures OneIdPerTask(files')
  {
    if args, stuck, written, which :| Attempt(files, files', args, stuck, written, which) {
      AttemptKeepsIds(files, args, stuck, written, which);
      BeforeRunSubset(args, files, stuck);
      SameMembers(files', FilesBeforeRun(args, files, stuck) + written);
      SubsetKeeps(files + written, files');
    } else {
      var taskIds, stuck :| Sweep(files, files', taskIds, stuck);
      var logs := Filter(files, TaskIdIn(taskIds));
      CleanedSubset(files, logs, stuck);
      SameMembers(files', Cleaned(files, logs, stuck));
      SubsetKeeps(files, files');
    }
  }

  /** From an empty directory, no sequence of attempts and cleanups ever gives a task two ids or an id two tasks. */
  lemma {:induction false} RunKeepsIds(dirs: seq<seq<LogFile>>, i: nat)
    requires Run(dirs) && i < |dirs|
    ensures OneIdPerTask(dirs[i])
  {
    if i > 0 {
      RunKeepsIds(dirs, i - 1);
      StepKeepsIds(dirs[i - 1], dirs[i - 1 + 1]);
    }
  }

  // ----- retries pair up one to one -----------------------------------------------------------------------------------

  lemma FilterIdents(x: LogFile, rest: seq<LogFile>, keep: LogFile -> bool)
    ensures multiset(Idents(Filter([x] + rest, keep)))
            == (if keep(x) then multiset{x.ident} else multiset{}) + multiset(Idents(Filter(rest, keep)))
  {
    var tail := Filter(rest, keep);
    assert ([x] + rest)[1..] == rest;
    if keep(x) {
      assert Filter([x] + rest, keep) == [x] + tail;
      IdentsCons(x, tail);
    } else {
      assert Filter([x] + rest, keep) == tail;
    }
  }

  lemma IdentsCons(l: LogFile, logs: seq<LogFile>)
    ensures multiset(Idents([l] + logs)) == multiset{l.ident} + multiset(Idents(logs))
  {
    assert Idents([l] + logs) == [l.ident] + Idents(logs);
  }

  /** Complete and incomplete logs are all the logs. */
  lemma {:induction false} SplitIdents(logs: seq<LogFile>, args: Args)
    ensures multiset(Idents(logs))
            == multiset(Idents(Filter(logs, IsComplete(args)))) + multiset(Idents(Filter(logs, IsIncomplete(args))))
  {
    if logs != [] {
      var x, rest := logs[0], logs[1..];
      SplitIdents(rest, args);
      assert logs == [x] + rest;
      IdentsCons(x, rest);
      FilterIdents(x, rest, IsComplete(args));
      FilterIdents(x, rest, IsIncomplete(args));
    }
  }

  lemma {:induction false} DistinctMultiset(a: seq<string>, b: seq<string>)
    requires Distinct(a) && Distinct(b) && forall x :: x in a <==> x in b
    ensures multiset(a) == multiset(b)
  {
    forall x ensures multiset(a)[x] == multiset(b)[x] {
      CountDistinct(a, x);
      CountDistinct(b, x);
    }
  }

  lemma {:induction false} CountDistinct(a: seq<string>, x: string)
    requires Distinct(a)
    ensures multiset(a)[x] == if x in a then 1 else 0
  {
    if a != [] {
      assert a == [a[0]] + a[1..];
      forall i, j | 0 <= i < j < |a[1..]| ensures a[1..][i] != a[1..][j] { assert a[i + 1] != a[j + 1]; }
      CountDistinct(a[1..], x);
      forall j | 0 <= j < |a[1..]| ensures a[1..][j] != a[0] { assert a[0] != a[j + 1]; }
    }
  }

  /** When every task has a log, the latest logs are one for each task. */
  lemma LatestPerTask(args: Args, files: seq<LogFile>)
    requires Validated(args, files).Success? && OneIdPerTask(files)
    requires Pending(args.tasks, Validated(args, files).value) == []
    ensures multiset(Idents(LatestLogs(Validated(args, files).value))) == multiset(TaskIdents(args.tasks))
    ensures Distinct(Idents(LatestLogs(Validated(args, files).value)))
  {
    var logs := Validated(args, files).value;
    ValidatedKnown(args, files);
    SubsetKeeps(files, logs);
    LatestIdents(logs);
    forall x | x in TaskIdents(args.tasks) ensures x in Idents(LatestLogs(logs)) { TaskHasLatest(args, files, x); }
    DistinctMultiset(Idents(LatestLogs(logs)), TaskIdents(args.tasks));
  }

  /** The latest logs are one for each task that has a log. */
  lemma LatestIdents(logs: seq<LogFile>)
    requires OneIdPerTask(logs)
    ensures Distinct(Idents(LatestLogs(logs)))
    ensures forall x :: x in Idents(LatestLogs(logs)) <==> exists f <- logs :: f.ident == x
  {
    var latest := LatestLogs(logs);
    LatestIsLatest(logs);
    IdsAreTaskIds(logs);
    forall i, j | 0 <= i < j < |latest| ensures Idents(latest)[i] != Idents(latest)[j] {
      assert Ids(logs)[i] != Ids(logs)[j];
      assert latest[i] in logs && latest[j] in logs;
    }
    forall x ensures x in Idents(latest) <==> exists f <- logs :: f.ident == x {
      IdentsMember(latest, x);
      if exists l <- latest :: l.ident == x {
        var l :| l in latest && l.ident == x;
        assert l in logs;
      }
      if f :| f in logs && f.ident == x {
        var l := LatestOfId(logs, f.taskId);
      }
    }
  }

  lemma LatestOfId(logs: seq<LogFile>, id: string) returns (l: LogFile)
    requires exists f <- logs :: f.taskId == id
    ensures l in LatestLogs(logs) && l in logs && l.taskId == id
  {
    LatestIsLatest(logs);
    IdsAreTaskIds(logs);
    assert id in Ids(logs);
    var i :| 0 <= i < |Ids(logs)| && Ids(logs)[i] == id;
    l := LatestLogs(logs)[i];
  }

  lemma TaskHasLatest(args: Args, files: seq<LogFile>, x: string)
    requires Validated(args, files).Success? && OneIdPerTask(files) && x in TaskIdents(args.tasks)
    requires Pending(args.tasks, Validated(args, files).value) == []
    ensures x in Idents(LatestLogs(Validated(args, files).value))
  {
    var logs := Validated(args, files).value;
    TaskHasLog(args, logs, x);
    ValidatedKnown(args, files);
    var f :| f in logs && f.ident == x;
    var l := LatestOfId(logs, f.taskId);
    IdentsMember(LatestLogs(logs), x);
  }

  lemma TaskHasLog(args: Args, logs: seq<LogFile>, x: string)
    requires x in TaskIdents(args.tasks) && Pending(args.tasks, logs) == []
    ensures exists f <- logs :: f.ident == x
  {
    var k :| 0 <= k < |args.tasks| && args.tasks[k].ident == x;
    FilterMember(args.tasks, TaskNotIn(Idents(logs)));
    assert args.tasks[k] in args.tasks;
    IdentsMember(logs, x);
  }

  /** Each retry is of an incomplete log, with that log's task and task id. */
  lemma RetryHasLog(args: Args, failed: seq<LogFile>, i: nat)
    requires i < |FailedTasks(args.tasks, failed)|
    ensures RetryOf(Retries(FailedTasks(args.tasks, failed), failed)[i], failed)
  {
    var tasks := FailedTasks(args.tasks, failed);
    assert tasks[i] in tasks;
    FilterMember(args.tasks, TaskIn(Idents(failed)));
    LogOfFinds(failed, tasks[i].ident);
  }

  lemma RequestsAreRetries(args: Args, files: seq<LogFile>)
    requires Validated(args, files).Success? && Pending(args.tasks, Validated(args, files).value) == []
    ensures var failed := IncompleteLogs(args, Validated(args, files).value);
            Requests(args, files) == Retries(FailedTasks(args.tasks, failed), failed)
  {
  }

  function RequestIdents(rs: seq<Request>): seq<string> {
    seq(|rs|, i requires 0 <= i < |rs| => rs[i].task.ident)
  }

  /** The request retries one of these logs, with its task and its task id. */
  ghost predicate RetryOf(r: Request, failed: seq<LogFile>) {
    exists l <- failed :: l.ident == r.task.ident && r.taskId == Some(l.taskId)
  }

  /** The requests are retries of these logs, one for each. */
  ghost predicate PairedUp(rs: seq<Request>, failed: seq<LogFile>) {
    && (forall r <- rs :: RetryOf(r, failed))
    && multiset(RequestIdents(rs)) == multiset(Idents(failed))
    && Distinct(RequestIdents(rs))
  }

  lemma PairUp(args: Args, failed: seq<LogFile>)
    requires Distinct(TaskIdents(args.tasks))
    requires multiset(TaskIdents(FailedTasks(args.tasks, failed))) == multiset(Idents(failed))
    ensures PairedUp(Retries(FailedTasks(args.tasks, failed), failed), failed)
  {
    var tasks := FailedTasks(args.tasks, failed);
    var rs := Retries(tasks, failed);
    FilterDistinct(args.tasks, TaskIn(Idents(failed)));
    assert RequestIdents(rs) == TaskIdents(tasks);
    forall r | r in rs ensures RetryOf(r, failed) {
      var i :| 0 <= i < |rs| && rs[i] == r;
      RetryHasLog(args, failed, i);
    }
  }

  /** Every incomplete log is retried exactly once, with its own task and its own task id. */
  lemma RetriesPairUp(args: Args, files: seq<LogFile>)
    requires Validated(args, files).Success? && OneIdPerTask(files)
    requires Pending(args.tasks, Validated(args, files).value) == []
    ensures PairedUp(Requests(args, files), IncompleteLogs(args, Validated(args, files).value))
  {
    RequestsAreRetries(args, files);
    FailedIdents(args, files);
    PairUp(args, IncompleteLogs(args, Validated(args, files).value));
  }

  lemma FailedIdents(args: Args, files: seq<LogFile>)
    requires Validated(args, files).Success? && OneIdPerTask(files)
    requires Pending(args.tasks, Validated(args, files).value) == []
    ensures var failed := IncompleteLogs(args, Validated(args, files).value);
            multiset(TaskIdents(FailedTasks(args.tasks, failed))) == multiset(Idents(failed))
  {
    var logs := Validated(args, files).value;
    var failed := IncompleteLogs(args, logs);
    var tasks := FailedTasks(args.tasks, failed);
    FilterDistinct(args.tasks, TaskIn(Idents(failed)));
    FilterMember(args.tasks, TaskIn(Idents(failed)));
    LatestPerTask(args, files);
    SplitIdents(LatestLogs(logs), args);
    forall x ensures multiset(TaskIdents(tasks))[x] == multiset(Idents(failed))[x] {
      CountDistinct(TaskIdents(tasks), x);
      CountDistinct(TaskIdents(args.tasks), x);
      assert multiset(Idents(failed))[x] <= 1;
      assert x in Idents(failed) <==> multiset(Idents(failed))[x] > 0;
      if x in Idents(failed) {
        assert x in TaskIdents(args.tasks);
        var k :| 0 <= k < |args.tasks| && TaskIdents(args.tasks)[k] == x;
        assert args.tasks[k] in args.tasks;
        TaskIdentIn(tasks, args.tasks[k]);
      }
      if x in TaskIdents(tasks) {
        var k :| 0 <= k < |tasks| && TaskIdents(tasks)[k] == x;
        assert tasks[k] in tasks;
      }
    }
  }

  /** When eval returns a log for every request, success_logs + retried_logs is exactly one log for each task. */
  lemma ResultsOnePerTask(args: Args, files: seq<LogFile>, written: seq<LogFile>)
    requires Validated(args, files).Success? && OneIdPerTask(files)
    requires Pending(args.tasks, Validated(args, files).value) == []
    requires |written| == |Requests(args, files)|
    requires forall i :: 0 <= i < |written| ==> written[i].ident == Requests(args, files)[i].task.ident
    ensures multiset(Idents(Results(args, files, written).value)) == multiset(TaskIdents(args.tasks))
  {
    var logs := Validated(args, files).value;
    var failed := IncompleteLogs(args, logs);
    LatestPerTask(args, files);
    SplitIdents(LatestLogs(logs), args);
    FailedIdents(args, files);
    RequestsAreRetries(args, files);
    JoinIdents(CompleteLogs(args, logs), failed, written, FailedTasks(args.tasks, failed));
  }

  lemma JoinIdents(complete: seq<LogFile>, failed: seq<LogFile>, written: seq<LogFile>, tasks: seq<Task>)
    requires multiset(TaskIdents(tasks)) == multiset(Idents(failed))
    requires |written| == |tasks| && forall i :: 0 <= i < |written| ==> written[i].ident == tasks[i].ident
    ensures multiset(Idents(complete + written)) == multiset(Idents(complete)) + multiset(Idents(failed))
  {
    assert Idents(written) == TaskIdents(tasks);
    assert Idents(complete + written) == Idents(complete) + Idents(written);
  }

  /** The same when all tasks run for the first time. */
  lemma FirstResultsOnePerTask(args: Args, files: seq<LogFile>, written: seq<LogFile>)
    requires Validated(args, files).Success?
    requires |Pending(args.tasks, Validated(args, files).value)| == |args.tasks| > 0
    requires |written| == |Requests(args, files)|
    requires forall i :: 0 <= i < |written| ==> written[i].ident == Requests(args, files)[i].task.ident
    ensures Idents(Results(args, files, written).value) == TaskIdents(args.tasks)
  {
    var logs := Validated(args, files).value;
    FilterFull(args.tasks, TaskNotIn(Idents(logs)));
  }

  lemma {:induction false} FilterFull(tasks: seq<Task>, keep: Task -> bool)
    requires |Filter(tasks, keep)| == |tasks|
    ensures Filter(tasks, keep) == tasks
  {
    if tasks != [] {
      FilterMember(tasks[1..], keep);
      FilterFull(tasks[1..], keep);
    }
  }

  // ----- cleanup -----------------------------------------------------------------------------------------------------

  /** Of every task id the directory keeps a log at least as recent as f. */
  predicate Keeps(files': seq<LogFile>, f: LogFile) {
    exists g <- files' :: g.taskId == f.taskId && Time(g) >= Time(f)
  }

  /** Cleaning up any part of a directory keeps the most recent log of every task id. */
  lemma CleanupKeepsLatest(files: seq<LogFile>, logs: seq<LogFile>, stuck: set<string>, f: LogFile)
    requires f in files && forall l <- logs :: l in files
    ensures Keeps(Cleaned(files, logs, stuck), f)
  {
    FilterMember(files, Survives(logs, stuck));
    if Doomed(logs, stuck, f) {
      FilterMember(logs, ByTaskId(f.taskId));
      var g := FirstMax(OfId(logs, f.taskId));
      FirstMaxIsMax(OfId(logs, f.taskId));
      assert !Doomed(logs, stuck, g);
    } else {
      assert f in Cleaned(files, logs, stuck);
    }
  }

  /** No log that is still marked as started is removed, and none that a cleanup was not given. */
  lemma CleanupSpares(files: seq<LogFile>, logs: seq<LogFile>, stuck: set<string>, f: LogFile)
    requires f in files && (f.status == Started || f !in logs)
    ensures f in Cleaned(files, logs, stuck)
  {
    FilterMember(files, Survives(logs, stuck));
  }

  lemma {:induction false} FirstMaxStays(logs: seq<LogFile>, keep: LogFile -> bool)
    requires logs != [] && keep(FirstMax(logs))
    ensures Filter(logs, keep) != [] && FirstMax(Filter(logs, keep)) == FirstMax(logs)
  {
    var n := |logs| - 1;
    var p, l := logs[..n], logs[n];
    var kept := Filter(p, keep);
    assert logs == p + [l];
    FilterAppend(p, l, keep);
    FirstMaxAppend(p, l);
    if n == 0 {
    } else if Time(l) > Time(FirstMax(p)) {
      FirstMaxIsMax(p);
      FilterMember(p, keep);
      if kept != [] { FirstMaxIsMax(kept); }
      FirstMaxAppend(kept, l);
    } else {
      FirstMaxStays(p, keep);
      FirstMaxAppend(kept, l);
      assert kept + [] == kept;
    }
  }

  lemma FirstMaxAppend(logs: seq<LogFile>, l: LogFile)
    ensures FirstMax(logs + [l])
            == if logs == [] || Time(l) > Time(FirstMax(logs)) then l else FirstMax(logs)
  {
    assert (logs + [l])[..|logs|] == logs;
  }

  /** A second cleanup of the same selection of files removes nothing more. */
  lemma CleanupTwice(files: seq<LogFile>, select: LogFile -> bool, stuck: set<string>)
    ensures var once := Cleaned(files, Filter(files, select), stuck);
            Cleaned(once, Filter(once, select), stuck) == once
  {
    var logs := Filter(files, select);
    var survives := Survives(logs, stuck);
    var once := Filter(files, survives);
    var logs' := Filter(once, select);
    FilterMember(files, survives);
    FilterMember(files, select);
    FilterMember(once, select);
    forall f | f in once ensures !Doomed(logs', stuck, f) {
      if f in logs' && f.status != Started && f.name !in stuck {
        var id := f.taskId;
        FilterMember(logs, ByTaskId(id));
        FilterMember(logs', ByTaskId(id));
        assert f in OfId(logs, id);
        assert f == FirstMax(OfId(logs, id));
        LogsAfter(files, select, survives, id);
        FirstMaxStays(OfId(logs, id), survives);
      }
    }
    FilterAll(once, Survives(logs', stuck));
  }

  /** Selecting, then cleaning, then taking one id, in either order. */
  lemma LogsAfter(files: seq<LogFile>, select: LogFile -> bool, survives: LogFile -> bool, id: string)
    ensures OfId(Filter(Filter(files, survives), select), id) == Filter(OfId(Filter(files, select), id), survives)
  {
    var all: LogFile -> bool := (f: LogFile) => select(f) && survives(f) && f.taskId == id;
    var ss: LogFile -> bool := (f: LogFile) => select(f) && survives(f);
    var si: LogFile -> bool := (f: LogFile) => select(f) && f.taskId == id;
    FilterTwice(files, survives, select, ss);
    FilterTwice(files, ss, ByTaskId(id), all);
    FilterTwice(files, select, ByTaskId(id), si);
    FilterTwice(files, si, survives, all);
  }

  /** Over any run, whatever was once the most recent log of a task id is still there or has a successor. */
  lemma {:induction false} RunKeepsLatest(dirs: seq<seq<LogFile>>, i: nat, f: LogFile)
    requires Run(dirs) && i < |dirs| && f in dirs[i]
    ensures Keeps(dirs[|dirs| - 1], f)
    decreases |dirs| - i
  {
    if i < |dirs| - 1 {
      assert Step(dirs[i], dirs[i + 1]);
      StepKeepsLatest(dirs[i], dirs[i + 1], f);
      var g :| g in dirs[i + 1] && g.taskId == f.taskId && Time(g) >= Time(f);
      RunKeepsLatest(dirs, i + 1, g);
    }
  }

  lemma StepKeepsLatest(files: seq<LogFile>, files': seq<LogFile>, f: LogFile)
    requires Step(files, files') && f in files
    ensures Keeps(files', f)
  {
    if args, stuck, written, which :| Attempt(files, files', args, stuck, written, which) {
      var logs, mid := Validated(args, files).value, FilesBeforeRun(args, files, stuck);
      SameMembers(files', mid + written);
      ValidatedKnown(args, files);
      CleanupKeepsLatest(files, logs, stuck, f);
      assert Keeps(mid, f);
      var g :| g in mid && g.taskId == f.taskId && Time(g) >= Time(f);
      assert g in mid + written;
    } else {
      var taskIds, stuck :| Sweep(files, files', taskIds, stuck);
      var logs := Filter(files, TaskIdIn(taskIds));
      FilterMember(files, TaskIdIn(taskIds));
      CleanupKeepsLatest(files, logs, stuck, f);
      SameMembers(files', Cleaned(files, logs, stuck));
    }
  }

  // ----- being done ------------------------------------------------------------------------------------------------------

  /** With no incomplete log left, the latest log of every task id is successful, valid and has enough samples. */
  lemma NothingIncomplete(args: Args, logs: seq<LogFile>, l: LogFile)
    requires IncompleteLogs(args, logs) == [] && l in LatestLogs(logs)
    ensures l.status == Succeeded && !l.invalidated && l.totalSamples.Some?
    ensures FindTask(args.tasks, l.ident).Some?
    ensures var task := FindTask(args.tasks, l.ident).value;
            var epochs := if args.epochs.Some? then args.epochs.value.epochs else TaskEpochs(task).epochs;
            l.totalSamples.value >= LimitedCount(task.datasetSize, args.limit) * epochs
    ensures var task := FindTask(args.tasks, l.ident).value;
            var epochs := if args.epochs.Some? then args.epochs.value.epochs
                          else if task.epochs.Some? && task.epochs.value != 0 then task.epochs.value else 1;
            Sensible(task.datasetSize, args.limit) ==>
              l.totalSamples.value >= |Selected(task.datasetSize, args.limit)| * epochs
  {
    FilterMember(LatestLogs(logs), IsIncomplete(args));
    assert !IsIncomplete(args)(l);
    CountsSelected(FindTask(args.tasks, l.ident).value.datasetSize, args.limit);
  }

  /**
   When a log is accepted by a call without epochs: besides what its status and samples must be, it was made with the epochs of
   its task and with the default reducer, whatever reducer the task has.
   */
  lemma AcceptedExactly(log: LogFile, tasks: seq<Task>, limit: Limit, t: Task)
    requires FindTask(tasks, log.ident) == Some(t)
    ensures var epochs := if t.epochs.Some? && t.epochs.value != 0 then t.epochs.value else 1;
      NeedsWork(log, tasks, None, limit) == Success(false) <==>
      && log.status == Succeeded && !log.invalidated && log.totalSamples.Some?
      && log.totalSamples.value >= LimitedCount(t.datasetSize, limit) * epochs
      && log.config.epochs == Some(epochs) && !OwnReducer(log.config)
    ensures var epochs := if t.epochs.Some? && t.epochs.value != 0 then t.epochs.value else 1;
      Sensible(t.datasetSize, limit) ==>
      (NeedsWork(log, tasks, None, limit) == Success(false) <==>
       && log.status == Succeeded && !log.invalidated && log.totalSamples.Some?
       && log.totalSamples.value >= |Selected(t.datasetSize, limit)| * epochs
       && log.config.epochs == Some(epochs) && !OwnReducer(log.config))
  {
    CompleteIsNoWork(log, tasks, None, limit);
    CountsSelected(t.datasetSize, limit);
  }

  /** When a log is accepted by a call with epochs: it was made with as many, and with the same reducers or the default for
      both. */
  lemma AcceptedWithEpochs(log: LogFile, tasks: seq<Task>, e: Epochs, limit: Limit, t: Task)
    requires FindTask(tasks, log.ident) == Some(t)
    ensures var asked := if e.reducer.Some? then e.reducer.value else [];
      var used := if log.config.reducer.Some? then log.config.reducer.value else [];
      NeedsWork(log, tasks, Some(e), limit) == Success(false) <==>
      && log.status == Succeeded && !log.invalidated && log.totalSamples.Some?
      && log.totalSamples.value >= LimitedCount(t.datasetSize, limit) * e.epochs
      && log.config.epochs == Some(e.epochs)
      && (asked == used || (e.reducer.None? && log.config.reducer == Some(["mean"])))
  {
    CompleteIsNoWork(log, tasks, Some(e), limit);
  }

  /** The log was made with reducers other than the default. */
  predicate OwnReducer(config: EvalConfig) {
    Names(config.reducer) != [] && config.reducer != Some(["mean"])
  }

  /** In every run, every attempt without epochs that starts no new task retries each task whose logs were made with reducers
      of its own, however often it has succeeded. */
  lemma OwnReducerAlwaysRetried(dirs: seq<seq<LogFile>>, i: nat, args: Args, t: Task)
    requires Run(dirs) && i < |dirs| && Validated(args, dirs[i]).Success? && args.epochs.None?
    requires Pending(args.tasks, Validated(args, dirs[i]).value) == [] && t in args.tasks
    requires forall l <- dirs[i] :: l.ident == t.ident ==> OwnReducer(l.config)
    ensures exists r <- Requests(args, dirs[i]) :: r.task == t && r.taskId.Some?
  {
    var files := dirs[i];
    var logs := Validated(args, files).value;
    var failed := IncompleteLogs(args, logs);
    RunKeepsIds(dirs, i);
    TaskIdentIn(args.tasks, t);
    TaskHasLatest(args, files, t.ident);
    var l := LogNamed(LatestLogs(logs), t.ident);
    LatestIsLatest(logs);
    ValidatedKnown(args, files);
    OwnReducerIncomplete(args, l);
    FilterMember(LatestLogs(logs), IsIncomplete(args));
    IdentsMember(failed, t.ident);
    RetriesOf(args, failed, t);
    RequestsAreRetries(args, files);
  }

  lemma LogNamed(logs: seq<LogFile>, ident: string) returns (l: LogFile)
    requires ident in Idents(logs)
    ensures l in logs && l.ident == ident
  {
    var i :| 0 <= i < |logs| && Idents(logs)[i] == ident;
    l := logs[i];
  }

  lemma OwnReducerIncomplete(args: Args, l: LogFile)
    requires args.epochs.None? && OwnReducer(l.config)
    ensures IsIncomplete(args)(l)
  {
  }

  /** Every task with an incomplete log is among the retries, with a task id. */
  lemma RetriesOf(args: Args, failed: seq<LogFile>, t: Task)
    requires t in args.tasks && t.ident in Idents(failed)
    ensures exists r <- Retries(FailedTasks(args.tasks, failed), failed) :: r.task == t && r.taskId.Some?
  {
    var tasks := FailedTasks(args.tasks, failed);
    FilterMember(args.tasks, TaskIn(Idents(failed)));
    var k :| 0 <= k < |tasks| && tasks[k] == t;
    LogOfFinds(failed, t.ident);
    var r := Retries(tasks, failed)[k];
    assert r in Retries(tasks, failed) && r.task == t;
  }
}
