/** What the success of an eval set means: the test that ends the retries looks at statuses only. */
module EvalSetOutcome {
  import opened EvalSet
  import opened EvalSetCode
  import opened EvalSetRuns
  import opened Sequences
  import opened Wrappers

  /** `all_evals_succeeded`: no further attempt is made, and success is reported. */
  predicate AllSucceeded(logs: seq<LogFile>) {
    forall l <- logs :: l.status == Succeeded && !l.invalidated
  }

  /** The next attempt would have something to run. */
  predicate WorkLeft(args: Args, files: seq<LogFile>) {
    Requests(args, files) != []
  }

  /** A task of the set that has been run before has a latest log that is not complete. */
  predicate StaleLog(args: Args, files: seq<LogFile>) {
    Validated(args, files).Success? && HasIncomplete(args, LatestLogs(Validated(args, files).value))
  }

  predicate HasIncomplete(args: Args, logs: seq<LogFile>) {
    exists l <- logs :: !Complete(l, args.tasks, args.epochs, args.limit)
  }

  /** A task that eval was asked to run has no log of this attempt. */
  predicate Unwritten(requests: seq<Request>, written: seq<LogFile>) {
    exists r <- requests :: r.task.ident !in Idents(written)
  }

  lemma StaleIsIncomplete(args: Args, files: seq<LogFile>)
    requires Validated(args, files).Success?
    ensures StaleLog(args, files) <==> IncompleteLogs(args, Validated(args, files).value) != []
  {
    var logs := Validated(args, files).value;
    FilterMember(LatestLogs(logs), IsIncomplete(args));
    if IncompleteLogs(args, logs) != [] {
      var l := IncompleteLogs(args, logs)[0];
      assert l in IncompleteLogs(args, logs) && IsIncomplete(args)(l);
    }
    if StaleLog(args, files) {
      var l :| l in LatestLogs(logs) && !Complete(l, args.tasks, args.epochs, args.limit);
      assert IsIncomplete(args)(l);
    }
  }

  lemma TaskNamed(tasks: seq<Task>, ident: string) returns (t: Task)
    requires ident in TaskIdents(tasks)
    ensures t in tasks && t.ident == ident
  {
    var i :| 0 <= i < |tasks| && TaskIdents(tasks)[i] == ident;
    t := tasks[i];
  }

  /** Work is left exactly when a task has no log or a latest log is not complete. */
  lemma WorkLeftMeans(args: Args, files: seq<LogFile>)
    requires Validated(args, files).Success?
    ensures WorkLeft(args, files) <==> Pending(args.tasks, Validated(args, files).value) != [] || StaleLog(args, files)
  {
    var failed := IncompleteLogs(args, Validated(args, files).value);
    StaleIsIncomplete(args, files);
    FilterMember(args.tasks, TaskIn(Idents(failed)));
    if failed != [] {
      FilterMember(LatestLogs(Validated(args, files).value), IsIncomplete(args));
      LatestIsLatest(Validated(args, files).value);
      ValidatedKnown(args, files);
      assert failed[0] in failed;
      IdentsMember(failed, failed[0].ident);
      var t := TaskNamed(args.tasks, failed[0].ident);
      assert t in FailedTasks(args.tasks, failed);
    } else {
      FilterNone(args.tasks, TaskIn(Idents(failed)));
    }
  }

  // ----- new logs come last ------------------------------------------------------------------------------------------------

  lemma LatestForSame(logs: seq<LogFile>, more: seq<LogFile>, ids: seq<string>)
    requires forall id <- ids :: OfId(logs, id) != [] && OfId(more, id) == OfId(logs, id)
    ensures LatestFor(more, ids) == LatestFor(logs, ids)
  {
    var a, b := LatestFor(logs, ids), LatestFor(more, ids);
    forall i | 0 <= i < |ids| ensures a[i] == b[i] { assert ids[i] in ids; }
  }

  lemma IdsOfNew(logs: seq<LogFile>, w: LogFile)
    requires forall f <- logs :: f.taskId != w.taskId
    ensures Ids(logs + [w]) == Ids(logs) + [w.taskId] && w.taskId !in Ids(logs)
  {
    assert (logs + [w])[..|logs|] == logs;
    IdsAreTaskIds(logs);
  }

  lemma OfIdWithNew(logs: seq<LogFile>, w: LogFile, id: string)
    requires forall f <- logs :: f.taskId != w.taskId
    ensures OfId(logs + [w], id) == if id == w.taskId then [w] else OfId(logs, id)
  {
    FilterAppend(logs, w, ByTaskId(id));
    if id == w.taskId { FilterNone(logs, ByTaskId(id)); }
  }

  /** A log with a new id is the latest of its id, and changes nothing for the others. */
  lemma LatestOfNew(logs: seq<LogFile>, w: LogFile)
    requires forall f <- logs :: f.taskId != w.taskId
    ensures LatestLogs(logs + [w]) == LatestLogs(logs) + [w]
  {
    var more, ids := logs + [w], Ids(logs);
    IdsHaveLogs(logs);
    IdsHaveLogs(more);
    IdsOfNew(logs, w);
    forall id | id in ids ensures OfId(more, id) == OfId(logs, id) { OfIdWithNew(logs, w, id); }
    OfIdWithNew(logs, w, w.taskId);
    LatestForSame(logs, more, ids);
    LatestForLast(more, ids, w);
  }

  lemma LatestForLast(logs: seq<LogFile>, ids: seq<string>, w: LogFile)
    requires (forall id <- ids :: OfId(logs, id) != []) && OfId(logs, w.taskId) == [w]
    ensures LatestFor(logs, ids + [w.taskId]) == LatestFor(logs, ids) + [w]
  {
    assert (ids + [w.taskId])[..|ids|] == ids;
  }

  /** Every log has an id of its own, not among those before. */
  ghost predicate NewIds(logs: seq<LogFile>, written: seq<LogFile>) {
    && (forall f <- logs, w <- written :: f.taskId != w.taskId)
    && (forall i, j :: 0 <= i < j < |written| ==> written[i].taskId != written[j].taskId)
  }

  lemma LatestOfAllNew(logs: seq<LogFile>, written: seq<LogFile>)
    requires NewIds(logs, written)
    ensures LatestLogs(logs + written) == LatestLogs(logs) + written
  {
    LatestUpTo(logs, written, |written|);
    assert written[..|written|] == written;
  }

  lemma {:induction false} LatestUpTo(logs: seq<LogFile>, written: seq<LogFile>, n: nat)
    requires NewIds(logs, written) && n <= |written|
    ensures LatestLogs(logs + written[..n]) == LatestLogs(logs) + written[..n]
  {
    if n == 0 {
      assert written[..0] == [] && logs + [] == logs;
    } else {
      LatestUpTo(logs, written, n - 1);
      LatestNext(logs, written, n - 1, LatestLogs(logs));
    }
  }

  lemma LatestNext(logs: seq<LogFile>, written: seq<LogFile>, n: nat, latest: seq<LogFile>)
    requires NewIds(logs, written) && n < |written| && LatestLogs(logs + written[..n]) == latest + written[..n]
    ensures LatestLogs(logs + written[..n + 1]) == latest + written[..n + 1]
  {
    NotSeen(logs, written, n);
    LatestOfOneMore(logs, written[..n], written[n], latest);
    assert written[..n + 1] == written[..n] + [written[n]];
  }

  lemma LatestOfOneMore(logs: seq<LogFile>, init: seq<LogFile>, w: LogFile, latest: seq<LogFile>)
    requires LatestLogs(logs + init) == latest + init && forall f <- logs + init :: f.taskId != w.taskId
    ensures LatestLogs(logs + (init + [w])) == latest + (init + [w])
  {
    Associate(logs, init, w);
    Associate(latest, init, w);
    LatestOfNew(logs + init, w);
  }

  lemma Associate(a: seq<LogFile>, b: seq<LogFile>, w: LogFile)
    ensures (a + b) + [w] == a + (b + [w])
  {
  }

  lemma NotSeen(logs: seq<LogFile>, written: seq<LogFile>, n: nat)
    requires NewIds(logs, written) && n < |written|
    ensures forall f <- logs + written[..n] :: f.taskId != written[n].taskId
  {
    assert written[n] in written;
    forall f | f in logs + written[..n] ensures f.taskId != written[n].taskId {
      if f in written[..n] { var i :| 0 <= i < n && written[i] == f; }
    }
  }

  // ----- an attempt that runs some tasks for the first time -------------------------------------------------------------------

  lemma FirstRunIds(args: Args, files: seq<LogFile>, written: seq<LogFile>, which: seq<nat>)
    requires Validated(args, files).Success? && Pending(args.tasks, Validated(args, files).value) != []
    requires WrittenBy(files, Requests(args, files), written, which)
    ensures NewIds(files, written)
    ensures forall w <- written :: w.ident in TaskIdents(args.tasks)
  {
    var logs := Validated(args, files).value;
    var requests := Requests(args, files);
    forall i | 0 <= i < |written|
      ensures (forall f <- files :: f.taskId != written[i].taskId) && written[i].ident in TaskIdents(args.tasks)
      ensures forall j :: 0 <= j < |written| && j != i ==> written[j].taskId != written[i].taskId
    {
      assert Answers(files, requests, written, which, i);
      var t := requests[which[i]].task;
      FilterMember(args.tasks, TaskNotIn(Idents(logs)));
      assert t in Pending(args.tasks, logs);
      assert requests[which[i]].taskId == None;
      TaskIdentIn(args.tasks, t);
    }
  }

  /** The logs of the set afterwards are those from before and the new ones. */
  lemma ValidatedAfter(args: Args, files: seq<LogFile>, written: seq<LogFile>)
    requires Validated(args, files).Success? && forall w <- written :: w.ident in TaskIdents(args.tasks)
    ensures Validated(args, files + written) == Success(Validated(args, files).value + written)
  {
    FilterConcat(files, written, IdentIn(TaskIdents(args.tasks)));
    FilterAll(written, IdentIn(TaskIdents(args.tasks)));
  }

  lemma RequestsOfFirstRuns(args: Args, files: seq<LogFile>, written: seq<LogFile>)
    requires Validated(args, files).Success? && Pending(args.tasks, Validated(args, files).value) != []
    ensures Unwritten(Requests(args, files), written) <==>
              exists t <- Pending(args.tasks, Validated(args, files).value) :: t.ident !in Idents(written)
  {
    var pending := Pending(args.tasks, Validated(args, files).value);
    if t :| t in pending && t.ident !in Idents(written) {
      var i :| 0 <= i < |pending| && pending[i] == t;
      assert Requests(args, files)[i] in Requests(args, files);
    }
  }

  /** A task has no log afterwards exactly when it had none and none was written. */
  lemma PendingAfter(args: Args, files: seq<LogFile>, written: seq<LogFile>)
    requires Validated(args, files).Success? && Pending(args.tasks, Validated(args, files).value) != []
    ensures Pending(args.tasks, Validated(args, files).value + written) != [] <==> Unwritten(Requests(args, files), written)
  {
    var logs := Validated(args, files).value;
    var after := Pending(args.tasks, logs + written);
    FilterMember(args.tasks, TaskNotIn(Idents(logs)));
    FilterMember(args.tasks, TaskNotIn(Idents(logs + written)));
    assert Idents(logs + written) == Idents(logs) + Idents(written);
    RequestsOfFirstRuns(args, files, written);
    if after != [] { assert after[0] in after; }
  }

  lemma StaleAfter(args: Args, files: seq<LogFile>, written: seq<LogFile>)
    requires Validated(args, files).Success? && NewIds(Validated(args, files).value, written)
    requires Validated(args, files + written) == Success(Validated(args, files).value + written)
    ensures StaleLog(args, files + written) <==> StaleLog(args, files) || HasIncomplete(args, written)
  {
    var logs := Validated(args, files).value;
    LatestOfAllNew(logs, written);
    forall l ensures l in LatestLogs(logs + written) <==> l in LatestLogs(logs) || l in written {}
  }

  lemma SucceededAfter(files: seq<LogFile>, written: seq<LogFile>)
    requires NewIds(files, written)
    ensures AllSucceeded(LatestLogs(files + written)) <==> AllSucceeded(LatestLogs(files)) && AllSucceeded(written)
  {
    LatestOfAllNew(files, written);
    forall l ensures l in LatestLogs(files + written) <==> l in LatestLogs(files) || l in written {}
  }

  /**
   An attempt that runs tasks for the first time, for every outcome of eval. It ends the call with success exactly when each
   log that was written has succeeded and, unless no task had a log before, the latest log of every other series in the
   directory has too. Work is left exactly when a log that was there before is not complete, for want of samples or because it
   was made with other epochs, or a task was asked for and got no log, or one that is not complete. Nothing compares the older
   logs with the epochs and limit of this call, and nothing counts the new ones.
   */
  lemma SuccessWithWorkLeft(args: Args, files: seq<LogFile>, written: seq<LogFile>, which: seq<nat>)
    requires Validated(args, files).Success? && Pending(args.tasks, Validated(args, files).value) != []
    requires WrittenBy(files, Requests(args, files), written, which)
    ensures Results(args, files, written).Success?
    ensures AllSucceeded(Results(args, files, written).value) <==>
              && AllSucceeded(written)
              && (|Pending(args.tasks, Validated(args, files).value)| == |args.tasks| || AllSucceeded(LatestLogs(files)))
    ensures WorkLeft(args, files + written) <==>
              || StaleLog(args, files)
              || Unwritten(Requests(args, files), written)
              || HasIncomplete(args, written)
  {
    FirstRunIds(args, files, written, which);
    ValidatedAfter(args, files, written);
    ValidatedKnown(args, files);
    WorkLeftMeans(args, files + written);
    PendingAfter(args, files, written);
    StaleAfter(args, files, written);
    SucceededAfter(files, written);
  }

  /** When the results of such an attempt are one log for each task. */
  lemma MixedResultsOnePerTask(args: Args, files: seq<LogFile>, written: seq<LogFile>, which: seq<nat>)
    requires Validated(args, files).Success? && OneIdPerTask(files)
    requires 0 < |Pending(args.tasks, Validated(args, files).value)| < |args.tasks|
    requires WrittenBy(files, Requests(args, files), written, which)
    ensures multiset(Idents(Results(args, files, written).value)) == multiset(TaskIdents(args.tasks)) <==>
              (forall f <- files :: f.ident in TaskIdents(args.tasks)) && !Unwritten(Requests(args, files), written)
  {
    var all := files + written;
    FirstRunIds(args, files, written, which);
    AttemptKeepsIds(files, args, {}, written, which);
    LatestIdents(all);
    TasksWithLogs(args, files, written);
    var got, want := Idents(LatestLogs(all)), TaskIdents(args.tasks);
    if multiset(got) == multiset(want) {
      forall x ensures x in got <==> x in want {
        assert x in got <==> x in multiset(got);
        assert x in want <==> x in multiset(want);
      }
    }
    if forall x :: x in got <==> x in want { DistinctMultiset(got, want); }
  }

  /** Every task has a log exactly when none was asked for in vain. */
  lemma TasksWithLogs(args: Args, files: seq<LogFile>, written: seq<LogFile>)
    requires Validated(args, files).Success? && Pending(args.tasks, Validated(args, files).value) != []
    ensures (forall x <- TaskIdents(args.tasks) :: exists f <- files + written :: f.ident == x)
            <==> !Unwritten(Requests(args, files), written)
  {
    var logs := Validated(args, files).value;
    FilterMember(args.tasks, TaskNotIn(Idents(logs)));
    FilterMember(files, IdentIn(TaskIdents(args.tasks)));
    RequestsOfFirstRuns(args, files, written);
    forall x | x in TaskIdents(args.tasks)
      ensures (exists f <- files + written :: f.ident == x) <==> x in Idents(logs) || x in Idents(written)
    {
      IdentsMember(logs, x);
      IdentsMember(written, x);
    }
    forall t | t in args.tasks ensures t.ident in TaskIdents(args.tasks) { TaskIdentIn(args.tasks, t); }
    forall x | x in TaskIdents(args.tasks) && x !in Idents(logs)
      ensures exists t <- Pending(args.tasks, logs) :: t.ident == x
    {
      var t := TaskNamed(args.tasks, x);
    }
  }

  /** A set with one finished task is called again with a second task: when the second completes, the call succeeds whatever
      the first log holds, and work is left exactly when the first log is not complete. */
  lemma SecondTaskAdded(args: Args, a: Task, b: Task, first: LogFile, second: LogFile)
    requires args.tasks == [a, b] && a.ident != b.ident
    requires first.ident == a.ident && second.ident == b.ident && first.taskId != second.taskId && first.name != second.name
    requires AllSucceeded([first]) && Complete(second, args.tasks, args.epochs, args.limit)
    ensures Results(args, [first], [second]) == Success([first, second]) && AllSucceeded([first, second])
    ensures WorkLeft(args, [first, second]) <==> !Complete(first, args.tasks, args.epochs, args.limit)
  {
    SecondResults(args, a, b, first, second);
    SecondWorkLeft(args, a, b, first, second);
  }

  lemma SecondWorkLeft(args: Args, a: Task, b: Task, first: LogFile, second: LogFile)
    requires args.tasks == [a, b] && a.ident != b.ident
    requires first.ident == a.ident && second.ident == b.ident && first.taskId != second.taskId && first.name != second.name
    requires Complete(second, args.tasks, args.epochs, args.limit)
    ensures WorkLeft(args, [first, second]) <==> !Complete(first, args.tasks, args.epochs, args.limit)
  {
    assert [first] + [second] == [first, second];
    FirstAlone(args, a, b, first);
    SecondAsked(args, a, b, first, second);
    assert !HasIncomplete(args, [second]);
    SuccessWithWorkLeft(args, [first], [second], [0]);
  }

  lemma FirstAlone(args: Args, a: Task, b: Task, first: LogFile)
    requires args.tasks == [a, b] && a.ident != b.ident && first.ident == a.ident
    ensures Validated(args, [first]) == Success([first]) && Pending(args.tasks, [first]) != []
    ensures StaleLog(args, [first]) <==> !Complete(first, args.tasks, args.epochs, args.limit)
  {
    OnePending(args, a, b, first);
    assert LatestLogs([first]) == [first] by {
      assert [] + [first] == [first] && LatestLogs([]) == [];
      LatestOfNew([], first);
    }
    assert first in [first];
  }

  lemma SecondResults(args: Args, a: Task, b: Task, first: LogFile, second: LogFile)
    requires args.tasks == [a, b] && a.ident != b.ident
    requires first.ident == a.ident && second.ident == b.ident && first.taskId != second.taskId && first.name != second.name
    requires AllSucceeded([first]) && Complete(second, args.tasks, args.epochs, args.limit)
    ensures Results(args, [first], [second]) == Success([first, second]) && AllSucceeded([first, second])
  {
    OnePending(args, a, b, first);
    LatestOfTwo(first, second);
    assert first in [first] && second in [second];
  }

  lemma LatestOfTwo(first: LogFile, second: LogFile)
    requires first.taskId != second.taskId
    ensures LatestLogs([first]) == [first] && LatestLogs([first] + [second]) == [first, second]
  {
    assert [] + [first] == [first] && LatestLogs([]) == [];
    LatestOfNew([], first);
    LatestOfNew([first], second);
  }

  lemma SecondAsked(args: Args, a: Task, b: Task, first: LogFile, second: LogFile)
    requires args.tasks == [a, b] && a.ident != b.ident && first.ident == a.ident && second.ident == b.ident
    requires first.taskId != second.taskId && first.name != second.name
    ensures WrittenBy([first], Requests(args, [first]), [second], [0]) && !Unwritten(Requests(args, [first]), [second])
  {
    OnePending(args, a, b, first);
    assert Requests(args, [first]) == [Request(b, None)];
    assert Answers([first], Requests(args, [first]), [second], [0], 0);
    assert Idents([second])[0] == b.ident;
  }

  lemma OnePending(args: Args, a: Task, b: Task, first: LogFile)
    requires args.tasks == [a, b] && a.ident != b.ident && first.ident == a.ident
    ensures TaskIdents(args.tasks) == [a.ident, b.ident]
    ensures Validated(args, [first]) == Success([first]) && Pending(args.tasks, [first]) == [b]
  {
    assert TaskIdents(args.tasks) == [a.ident, b.ident];
    assert Idents([first]) == [a.ident];
    assert IdentIn([a.ident, b.ident])(first);
    FilterFirst(first, [], IdentIn(TaskIdents(args.tasks)));
    assert [first] + [] == [first];
    FilterFirst(a, [b], TaskNotIn(Idents([first])));
    FilterFirst(b, [], TaskNotIn(Idents([first])));
    assert [a] + [b] == [a, b] && [b] + [] == [b];
  }
}
