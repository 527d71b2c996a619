/** The loops of the eval-set code over a log directory, each proved to compute its definition in EvalSet. */
module EvalSetCode {
  import opened Sequences
  import opened Wrappers
  import opened EvalSet

  function NotNamed(names: set<string>): LogFile -> bool { (f: LogFile) => f.name !in names }

  function Without(files: seq<LogFile>, names: set<string>): seq<LogFile> {
    Filter(files, NotNamed(names))
  }

  class LogDir {
    var files: seq<LogFile>

    constructor ()
      ensures files == []
    {
      files := [];
    }

    /** fs.rm: removing a stuck file fails and leaves it. */
    method Remove(name: string, stuck: set<string>)
      modifies this
      ensures files == if name in stuck then old(files) else Without(old(files), {name})
    {
      if name !in stuck {
        files := Filter(files, NotNamed({name}));
      }
    }

    /** What eval leaves behind. */
    method Write(written: seq<LogFile>)
      modifies this
      ensures files == old(files) + written
    {
      files := files + written;
    }

    /** The most recent of a group; sorting by time, latest first, is stable. */
    method MostRecent(group: seq<LogFile>) returns (latest: LogFile)
      requires group != []
      ensures latest == FirstMax(group)
      ensures exists i :: 0 <= i < |group| && group[i] == latest && forall j :: 0 <= j < i ==> Time(group[j]) < Time(latest)
      ensures forall f <- group :: Time(f) <= Time(latest)
    {
      latest := group[0];
      for i := 1 to |group|
        invariant latest == FirstMax(group[..i])
      {
        assert group[..i + 1][..i] == group[..i];
        if Time(group[i]) > Time(latest) { latest := group[i]; }
      }
      assert group[..|group|] == group;
      FirstMaxIsMax(group);
      var first := FirstMaxIsFirst(group);
    }

    /** Remove the logs of a group other than the latest, except those still marked as started. */
    method RemoveOlder(group: seq<LogFile>, latest: LogFile, stuck: set<string>, ghost original: seq<LogFile>,
                       ghost removed: set<string>) returns (ghost removed': set<string>)
      requires files == Without(original, removed)
      modifies this
      ensures files == Without(original, removed')
      ensures removed' == removed +
        set f | f in group && f != latest && f.status != Started && f.name !in stuck :: f.name
    {
      removed' := removed;
      for i := 0 to |group|
        invariant files == Without(original, removed')
        invariant removed' == removed +
          set f | f in group[..i] && f != latest && f.status != Started && f.name !in stuck :: f.name
      {
        var f := group[i];
        assert group[..i + 1] == group[..i] + [f];
        if f != latest && f.status != Started {
          Remove(f.name, stuck);
          if f.name !in stuck {
            FilterTwice(original, NotNamed(removed'), NotNamed({f.name}), NotNamed(removed' + {f.name}));
            removed' := removed' + {f.name};
          }
        }
      }
      assert group[..|group|] == group;
    }

    /** Collect the logs of each task id, take the latest of each and remove the others if requested. */
    method LatestCompletedTaskEvalLogs(logs: seq<LogFile>, cleanupOlder: bool, stuck: set<string>)
      returns (latest: seq<LogFile>)
      requires UniqueNames(files) && forall l <- logs :: l in files
      modifies this
      ensures latest == LatestLogs(logs)
      ensures files == if cleanupOlder then Cleaned(old(files), logs, stuck) else old(files)
    {
      var groups, order := GroupById(logs);
      IdsHaveLogs(logs);
      ghost var original := files;
      ghost var removed: set<string> := {};
      FilterAll(original, NotNamed(removed));
      latest := [];
      for k := 0 to |order|
        invariant forall id <- order[..k] :: OfId(logs, id) != []
        invariant latest == LatestFor(logs, order[..k])
        invariant files == Without(original, removed)
        invariant removed == if cleanupOlder then RemovedNames(logs, order[..k], stuck) else {}
      {
        LatestAppend(logs, order, k);
        var group := groups[order[k]];
        var best := MostRecent(group);
        latest := latest + [best];
        if cleanupOlder {
          removed := RemoveOlder(group, best, stuck, original, removed);
          RemovedStep(logs, order, k, stuck);
        }
      }
      assert order[..|order|] == order;
      if cleanupOlder {
        RemovedAreDoomed(original, logs, stuck);
        FilterSame(original, NotNamed(removed), Survives(logs, stuck));
      }
    }

    static method GroupById(logs: seq<LogFile>) returns (groups: map<string, seq<LogFile>>, order: seq<string>)
      ensures order == Ids(logs)
      ensures forall id <- order :: id in groups && groups[id] == OfId(logs, id)
    {
      groups, order := map[], [];
      for i := 0 to |logs|
        invariant order == Ids(logs[..i])
        invariant forall id :: id in groups <==> id in order
        invariant forall id <- order :: groups[id] == OfId(logs[..i], id)
      {
        var id := logs[i].taskId;
        assert logs[..i + 1][..i] == logs[..i] && logs[..i + 1] == logs[..i] + [logs[i]];
        forall x: string ensures OfId(logs[..i + 1], x) == OfId(logs[..i], x) + if x == id then [logs[i]] else [] {
          FilterAppend(logs[..i], logs[i], ByTaskId(x));
        }
        if id !in groups {
          NoLogsYet(logs[..i], id);
          groups := groups[id := []];
          order := order + [id];
        }
        groups := groups[id := groups[id] + [logs[i]]];
      }
      assert logs[..|logs|] == logs;
    }

    /** list_latest_eval_logs: the latest logs, split into complete and incomplete ones. */
    method ListLatestEvalLogs(args: Args, logs: seq<LogFile>, stuck: set<string>)
      returns (r: Result<(seq<LogFile>, seq<LogFile>), Error>)
      requires UniqueNames(files) && forall l <- logs :: l in files
      modifies this
      ensures files == if args.cleanup then Cleaned(old(files), logs, stuck) else old(files)
      ensures Known(logs, args.tasks) ==> r == Success((CompleteLogs(args, logs), IncompleteLogs(args, logs)))
      ensures r.Failure? ==> r.error == TaskMissing
    {
      var latest := LatestCompletedTaskEvalLogs(logs, args.cleanup, stuck);
      LatestIsLatest(logs);
      r := Split(args, latest);
    }

    static method Split(args: Args, latest: seq<LogFile>) returns (r: Result<(seq<LogFile>, seq<LogFile>), Error>)
      ensures Known(latest, args.tasks) ==>
                r == Success((Filter(latest, IsComplete(args)), Filter(latest, IsIncomplete(args))))
      ensures r.Failure? ==> r.error == TaskMissing
    {
      var complete: seq<LogFile>, incomplete: seq<LogFile> := [], [];
      for i := 0 to |latest|
        invariant Known(latest, args.tasks) ==>
          complete == Filter(latest[..i], IsComplete(args)) && incomplete == Filter(latest[..i], IsIncomplete(args))
      {
        var log := latest[i];
        assert latest[..i + 1] == latest[..i] + [log];
        FilterAppend(latest[..i], log, IsComplete(args));
        FilterAppend(latest[..i], log, IsIncomplete(args));
        CompleteIsNoWork(log, args.tasks, args.epochs, args.limit);
        var needsWork := NeedsWork(log, args.tasks, args.epochs, args.limit);
        if needsWork.Failure? { return Failure(needsWork.error); }
        if needsWork.value {
          incomplete := incomplete + [log];
        } else {
          complete := complete + [log];
        }
      }
      assert latest[..|latest|] == latest;
      r := Success((complete, incomplete));
    }

    /** validate_eval_set_prerequisites. */
    static method Validate(args: Args, logs: seq<LogFile>) returns (r: Result<seq<LogFile>, Error>)
      ensures r == Validated(args, logs)
      ensures r == Failure(NotDistinct) <==> exists i, j :: 0 <= i < j < |args.tasks| && args.tasks[i].ident == args.tasks[j].ident
      ensures r == Failure(NotInSet) <==>
        && (forall i, j :: 0 <= i < j < |args.tasks| ==> args.tasks[i].ident != args.tasks[j].ident)
        && !args.dirty && exists f <- logs :: forall t <- args.tasks :: t.ident != f.ident
      ensures r.Success? && !args.dirty ==> r.value == logs
      ensures r.Success? ==> forall f :: f in r.value <==> f in logs && exists t <- args.tasks :: t.ident == f.ident
      ensures r != Failure(TaskMissing)
    {
      ValidatedMeans(args, logs);
      var idents := TaskIdents(args.tasks);
      var seen: set<string> := {};
      for i := 0 to |args.tasks|
        invariant Distinct(idents[..i]) && forall x :: x in seen <==> x in idents[..i]
      {
        assert idents[..i + 1] == idents[..i] + [idents[i]];
        if args.tasks[i].ident in seen {
          var j :| 0 <= j < i && idents[j] == idents[i];
          return Failure(NotDistinct);
        }
        seen := seen + {args.tasks[i].ident};
      }
      assert idents[..|idents|] == idents;
      if args.dirty {
        return Success(Filter(logs, IdentIn(idents)));
      }
      for i := 0 to |logs|
        invariant forall f <- logs[..i] :: f.ident in idents
      {
        assert logs[..i + 1] == logs[..i] + [logs[i]];
        if logs[i].ident !in seen { return Failure(NotInSet); }
      }
      assert logs[..|logs|] == logs;
      r := Success(logs);
    }

    /** try_eval. What eval writes and returns is given; it must answer the requests of this attempt. */
    method TryEval(args: Args, stuck: set<string>, written: seq<LogFile>) returns (r: Result<seq<LogFile>, Error>)
      requires UniqueNames(files + written)
      requires Requests(args, files) == [] ==> written == []
      modifies this
      ensures r == Results(args, old(files), written)
      ensures r.Success? && Pending(args.tasks, Validated(args, old(files)).value) == [] ==>
        var n := |r.value| - |written|;
        n >= 0 && r.value[n..] == written && r.value[..n] == CompleteLogs(args, Validated(args, old(files)).value)
      ensures r.Success? && (!args.cleanup || Pending(args.tasks, Validated(args, old(files)).value) != []) ==>
        files == old(files) + written
      ensures files == if r.Failure? then old(files) else FilesBeforeRun(args, old(files), stuck) + written
    {
      assert UniqueNames(files) by {
        forall i, j | 0 <= i < j < |files| ensures files[i].name != files[j].name {
          assert (files + written)[i].name != (files + written)[j].name;
        }
      }
      var valid := Validate(args, files);
      if valid.Failure? { return Failure(valid.error); }
      var logs := valid.value;
      ValidatedKnown(args, files);
      var pending := Pending(args.tasks, logs);
      if |pending| > 0 {
        Write(written);
        if |pending| == |args.tasks| { return Success(written); }
        var latest := LatestCompletedTaskEvalLogs(files, false, stuck);
        return Success(latest);
      }
      var split := ListLatestEvalLogs(args, logs, stuck);
      var (complete, incomplete) := split.value;
      Write(written);
      r := Success(complete + written);
    }

    /** cleanup_older_eval_logs, the final sweep over the task ids of the results. */
    method CleanupOlderEvalLogs(taskIds: set<string>, stuck: set<string>)
      requires UniqueNames(files)
      modifies this
      ensures files == Cleaned(old(files), Filter(old(files), TaskIdIn(taskIds)), stuck)
    {
      var logs := Filter(files, TaskIdIn(taskIds));
      FilterMember(files, TaskIdIn(taskIds));
      var latest := LatestCompletedTaskEvalLogs(logs, true, stuck);
    }
  }

  // ----- lemmas -------------------------------------------------------------------------------------------------

  /** The tests in the order of the code find exactly the logs that are not complete. */
  lemma CompleteIsNoWork(log: LogFile, tasks: seq<Task>, epochs: Option<Epochs>, limit: Limit)
    ensures FindTask(tasks, log.ident).Some? ==> NeedsWork(log, tasks, epochs, limit) == Success(!Complete(log, tasks, epochs, limit))
    ensures NeedsWork(log, tasks, epochs, limit).Failure? ==> NeedsWork(log, tasks, epochs, limit).error == TaskMissing
  {
  }

  lemma NoLogsYet(logs: seq<LogFile>, id: string)
    requires id !in Ids(logs)
    ensures OfId(logs, id) == []
  {
    IdsAreTaskIds(logs);
    FilterNone(logs, ByTaskId(id));
  }

  lemma LatestAppend(logs: seq<LogFile>, order: seq<string>, k: nat)
    requires k < |order| && forall id <- order :: OfId(logs, id) != []
    ensures forall id <- order[..k] :: OfId(logs, id) != []
    ensures forall id <- order[..k + 1] :: OfId(logs, id) != []
    ensures LatestFor(logs, order[..k + 1]) == LatestFor(logs, order[..k]) + [FirstMax(OfId(logs, order[k]))]
  {
    assert order[..k + 1][..k] == order[..k];
  }

  function RemovedNames(logs: seq<LogFile>, ids: seq<string>, stuck: set<string>): set<string> {
    set f | f in logs && f.taskId in ids && Doomed(logs, stuck, f) :: f.name
  }

  lemma RemovedStep(logs: seq<LogFile>, order: seq<string>, k: nat, stuck: set<string>)
    requires k < |order| && OfId(logs, order[k]) != []
    ensures RemovedNames(logs, order[..k + 1], stuck) == RemovedNames(logs, order[..k], stuck) +
      set f | f in OfId(logs, order[k]) && f != FirstMax(OfId(logs, order[k])) && f.status != Started && f.name !in stuck
        :: f.name
  {
    assert order[..k + 1] == order[..k] + [order[k]];
    FilterMember(logs, ByTaskId(order[k]));
  }

  lemma RemovedAreDoomed(files: seq<LogFile>, logs: seq<LogFile>, stuck: set<string>)
    requires UniqueNames(files) && forall l <- logs :: l in files
    ensures forall f <- files :: f.name in RemovedNames(logs, Ids(logs), stuck) <==> Doomed(logs, stuck, f)
  {
    IdsAreTaskIds(logs);
    forall f | f in files ensures f.name in RemovedNames(logs, Ids(logs), stuck) <==> Doomed(logs, stuck, f) {
      if f.name in RemovedNames(logs, Ids(logs), stuck) {
        var g :| g in logs && Doomed(logs, stuck, g) && g.name == f.name;
        assert g in files;
        SameName(files, f, g);
      }
    }
  }

  lemma SameName(files: seq<LogFile>, f: LogFile, g: LogFile)
    requires UniqueNames(files) && f in files && g in files && f.name == g.name
    ensures f == g
  {
  }

  lemma NamedTask(tasks: seq<Task>, ident: string)
    ensures ident in TaskIdents(tasks) <==> exists t <- tasks :: t.ident == ident
  {
    if t :| t in tasks && t.ident == ident {
      var i :| 0 <= i < |tasks| && tasks[i] == t;
      assert TaskIdents(tasks)[i] == ident;
    }
  }

  /** The outcome of the validation in terms of tasks and logs. */
  lemma ValidatedMeans(args: Args, logs: seq<LogFile>)
    ensures var r := Validated(args, logs);
      && (r == Failure(NotDistinct)
          <==> exists i, j :: 0 <= i < j < |args.tasks| && args.tasks[i].ident == args.tasks[j].ident)
      && (r == Failure(NotInSet) <==>
          && (forall i, j :: 0 <= i < j < |args.tasks| ==> args.tasks[i].ident != args.tasks[j].ident)
          && !args.dirty && exists f <- logs :: forall t <- args.tasks :: t.ident != f.ident)
      && (r.Success? && !args.dirty ==> r.value == logs)
      && (r.Success? ==> forall f :: f in r.value <==> f in logs && exists t <- args.tasks :: t.ident == f.ident)
      && r != Failure(TaskMissing)
  {
    var idents := TaskIdents(args.tasks);
    assert |idents| == |args.tasks| && forall i :: 0 <= i < |idents| ==> idents[i] == args.tasks[i].ident;
    forall f: LogFile ensures f.ident in idents <==> exists t <- args.tasks :: t.ident == f.ident {
      NamedTask(args.tasks, f.ident);
    }
    FilterMember(logs, IdentIn(idents));
  }

  lemma ValidatedKnown(args: Args, files: seq<LogFile>)
    requires Validated(args, files).Success?
    ensures Known(Validated(args, files).value, args.tasks)
    ensures forall l <- Validated(args, files).value :: l in files && l.ident in TaskIdents(args.tasks)
  {
    var logs := Validated(args, files).value;
    FilterMember(files, IdentIn(TaskIdents(args.tasks)));
    forall l | l in logs ensures FindTask(args.tasks, l.ident).Some? {
      FindTaskFinds(args.tasks, l.ident);
    }
  }
}
