/** What the success of an attempt means that retried tasks, and what it leaves to do. */
module EvalSetRetries {
  import opened EvalSet
  import opened EvalSetCode
  import opened EvalSetOutcome
  import opened EvalSetRuns
  import opened Sequences
  import opened Wrappers

  /** After an attempt that ran retries, every returned log is either new or complete. */
  lemma RetrySuccess(args: Args, files: seq<LogFile>, written: seq<LogFile>, l: LogFile)
    requires Validated(args, files).Success? && Pending(args.tasks, Validated(args, files).value) == []
    requires l in Results(args, files, written).value
    ensures l in written || (l in files && Complete(l, args.tasks, args.epochs, args.limit))
  {
    var logs := Validated(args, files).value;
    FilterMember(LatestLogs(logs), IsComplete(args));
    LatestIsLatest(logs);
    ValidatedKnown(args, files);
    if l !in written {
      assert l in CompleteLogs(args, logs);
      assert IsComplete(args)(l);
    }
  }

  /** Each log that was written is more recent than those of its series before. */
  predicate Newest(files: seq<LogFile>, written: seq<LogFile>) {
    forall f <- files, w <- written :: f.taskId == w.taskId ==> Time(f) < Time(w)
  }

  predicate NoneOfId(written: seq<LogFile>, id: string) {
    forall w <- written :: w.taskId != id
  }

  lemma LatestIsFirst(logs: seq<LogFile>, l: LogFile)
    requires l in LatestLogs(logs)
    ensures OfId(logs, l.taskId) != [] && l == FirstMax(OfId(logs, l.taskId))
  {
    LatestIsLatest(logs);
    IdsHaveLogs(logs);
    var i :| 0 <= i < |LatestLogs(logs)| && LatestLogs(logs)[i] == l;
    assert Ids(logs)[i] == l.taskId;
  }

  /** A latest log is the first of the most recent ones of its id. */
  lemma LatestMember(logs: seq<LogFile>, l: LogFile)
    ensures l in LatestLogs(logs) <==> OfId(logs, l.taskId) != [] && l == FirstMax(OfId(logs, l.taskId))
  {
    if l in LatestLogs(logs) {
      LatestIsFirst(logs, l);
    } else if OfId(logs, l.taskId) != [] {
      FilterMember(logs, ByTaskId(l.taskId));
      assert OfId(logs, l.taskId)[0] in OfId(logs, l.taskId);
      var m := LatestOfId(logs, l.taskId);
      LatestIsFirst(logs, m);
    }
  }

  /** The logs that are kept until the retries run. */
  function KeptUntilRun(args: Args, logs: seq<LogFile>, stuck: set<string>): LogFile -> bool {
    (f: LogFile) => !args.cleanup || !Doomed(logs, stuck, f)
  }

  lemma ValidatedBeforeRun(args: Args, files: seq<LogFile>, stuck: set<string>)
    requires Validated(args, files).Success? && Pending(args.tasks, Validated(args, files).value) == []
    ensures var logs := Validated(args, files).value;
            Validated(args, FilesBeforeRun(args, files, stuck)) == Success(Filter(logs, KeptUntilRun(args, logs, stuck)))
  {
    var logs := Validated(args, files).value;
    var keep, known := KeptUntilRun(args, logs, stuck), IdentIn(TaskIdents(args.tasks));
    var both: LogFile -> bool := (f: LogFile) => keep(f) && known(f);
    BeforeRunFilter(args, files, stuck);
    FilterTwice(files, keep, known, both);
    FilterTwice(files, known, keep, both);
    FilterMember(files, keep);
  }

  lemma BeforeRunFilter(args: Args, files: seq<LogFile>, stuck: set<string>)
    requires Validated(args, files).Success? && Pending(args.tasks, Validated(args, files).value) == []
    ensures FilesBeforeRun(args, files, stuck) == Filter(files, KeptUntilRun(args, Validated(args, files).value, stuck))
  {
    var logs := Validated(args, files).value;
    if args.cleanup {
      FilterSame(files, Survives(logs, stuck), KeptUntilRun(args, logs, stuck));
    } else {
      FilterAll(files, KeptUntilRun(args, logs, stuck));
    }
  }

  /** One log of each id at most. */
  predicate OnePerId(written: seq<LogFile>) {
    forall i, j :: 0 <= i < j < |written| ==> written[i].taskId != written[j].taskId
  }

  lemma {:induction false} OnlyOne(written: seq<LogFile>, w: LogFile)
    requires OnePerId(written) && w in written
    ensures OfId(written, w.taskId) == [w]
  {
    var n := |written| - 1;
    assert written == written[..n] + [written[n]];
    FilterAppend(written[..n], written[n], ByTaskId(w.taskId));
    if w == written[n] {
      FilterNone(written[..n], ByTaskId(w.taskId));
    } else {
      OnlyOne(written[..n], w);
      var i :| 0 <= i < n && written[i] == w;
    }
  }

  lemma OfIdAfter(logs: seq<LogFile>, keep: LogFile -> bool, written: seq<LogFile>, id: string)
    ensures OfId(Filter(logs, keep) + written, id) == Filter(OfId(logs, id), keep) + OfId(written, id)
  {
    var both: LogFile -> bool := (f: LogFile) => keep(f) && f.taskId == id;
    FilterConcat(Filter(logs, keep), written, ByTaskId(id));
    FilterTwice(logs, keep, ByTaskId(id), both);
    FilterTwice(logs, ByTaskId(id), keep, both);
  }

  /** A new log is the latest of its id. */
  lemma NewIsLatest(logs: seq<LogFile>, keep: LogFile -> bool, written: seq<LogFile>, w: LogFile)
    requires OnePerId(written) && Newest(logs, written) && w in written
    ensures OfId(Filter(logs, keep) + written, w.taskId) != []
    ensures FirstMax(OfId(Filter(logs, keep) + written, w.taskId)) == w
  {
    var before := OfId(logs, w.taskId);
    OfIdAfter(logs, keep, written, w.taskId);
    OnlyOne(written, w);
    FilterMember(logs, ByTaskId(w.taskId));
    FilterMember(before, keep);
    if Filter(before, keep) != [] { FirstMaxIsMax(Filter(before, keep)); }
    FirstMaxAppend(Filter(before, keep), w);
  }

  /** Without a new log of its id, a latest log that is kept stays the latest. */
  lemma OldIsLatest(logs: seq<LogFile>, keep: LogFile -> bool, written: seq<LogFile>, id: string)
    requires OfId(logs, id) != [] && keep(FirstMax(OfId(logs, id))) && NoneOfId(written, id)
    ensures OfId(Filter(logs, keep) + written, id) != []
    ensures FirstMax(OfId(Filter(logs, keep) + written, id)) == FirstMax(OfId(logs, id))
  {
    OfIdAfter(logs, keep, written, id);
    FilterNone(written, ByTaskId(id));
    FirstMaxStays(OfId(logs, id), keep);
    assert Filter(OfId(logs, id), keep) + [] == Filter(OfId(logs, id), keep);
  }

  /** What the latest logs are after the retries: the new ones, and those of the ids without a new one. */
  lemma LatestAfterRetries(logs: seq<LogFile>, keep: LogFile -> bool, written: seq<LogFile>, l: LogFile)
    requires OnePerId(written) && Newest(logs, written)
    requires forall x <- LatestLogs(logs) :: keep(x)
    ensures l in LatestLogs(Filter(logs, keep) + written)
            <==> l in written || (l in LatestLogs(logs) && NoneOfId(written, l.taskId))
  {
    var after, id := Filter(logs, keep) + written, l.taskId;
    LatestMember(after, l);
    LatestMember(logs, l);
    if w :| w in written && w.taskId == id {
      NewIsLatest(logs, keep, written, w);
    } else if OfId(logs, id) != [] {
      var m := FirstMax(OfId(logs, id));
      FirstMaxIsMax(OfId(logs, id));
      FilterMember(logs, ByTaskId(id));
      LatestMember(logs, m);
      OldIsLatest(logs, keep, written, id);
    } else {
      OfIdAfter(logs, keep, written, id);
      FilterNone(written, ByTaskId(id));
    }
  }

  lemma LatestIsKept(args: Args, logs: seq<LogFile>, stuck: set<string>)
    ensures forall l <- LatestLogs(logs) :: KeptUntilRun(args, logs, stuck)(l)
  {
    forall l | l in LatestLogs(logs) ensures KeptUntilRun(args, logs, stuck)(l) { LatestMember(logs, l); }
  }

  /** After the retries no task is without a log. */
  lemma NonePending(args: Args, logs: seq<LogFile>, after: seq<LogFile>)
    requires Pending(args.tasks, logs) == [] && OneIdPerTask(logs)
    requires forall l <- LatestLogs(logs) :: exists a <- LatestLogs(after) :: a.ident == l.ident
    ensures Pending(args.tasks, after) == []
  {
    LatestIsLatest(after);
    LatestIdents(logs);
    forall t | t in args.tasks ensures t.ident in Idents(after) {
      TaskIdentIn(args.tasks, t);
      TaskHasLog(args, logs, t.ident);
      var l := LogNamed(LatestLogs(logs), t.ident);
      var a :| a in LatestLogs(after) && a.ident == l.ident;
      IdentsMember(after, t.ident);
    }
    FilterNone(args.tasks, TaskNotIn(Idents(after)));
  }

  lemma RetriesOnePerId(args: Args, files: seq<LogFile>, written: seq<LogFile>, which: seq<nat>)
    requires OneIdPerTask(files) && Validated(args, files).Success?
    requires WrittenBy(files, Requests(args, files), written, which)
    ensures OnePerId(written)
  {
    forall i, j | 0 <= i < j < |written| ensures written[i].taskId != written[j].taskId {
      WrittenDiffer(args, files, written, which, i, j);
    }
  }

  lemma SameSeries(files: seq<LogFile>, written: seq<LogFile>, l: LogFile)
    requires OneIdPerTask(files + written) && l in files
    ensures l.ident !in Idents(written) <==> NoneOfId(written, l.taskId)
  {
    IdentsMember(written, l.ident);
    assert l in files + written && forall w <- written :: w in files + written;
  }

  lemma FailedInFiles(args: Args, files: seq<LogFile>)
    requires Validated(args, files).Success?
    ensures forall l <- IncompleteLogs(args, Validated(args, files).value) :: l in files
  {
    var logs := Validated(args, files).value;
    ValidatedKnown(args, files);
    LatestIsLatest(logs);
    FilterMember(LatestLogs(logs), IsIncomplete(args));
  }

  /** A task was retried in vain exactly when the latest log of a series was not complete and has no new one. */
  lemma UnwrittenRetry(args: Args, files: seq<LogFile>, written: seq<LogFile>)
    requires Validated(args, files).Success? && OneIdPerTask(files + written)
    requires Pending(args.tasks, Validated(args, files).value) == []
    ensures Unwritten(Requests(args, files), written) <==>
              exists l <- IncompleteLogs(args, Validated(args, files).value) :: NoneOfId(written, l.taskId)
  {
    var logs := Validated(args, files).value;
    var failed, rs := IncompleteLogs(args, logs), Requests(args, files);
    SubsetKeeps(files + written, files);
    RetriesPairUp(args, files);
    FailedInFiles(args, files);
    RetriedInVain(files, written, failed, rs);
  }

  lemma RetriedInVain(files: seq<LogFile>, written: seq<LogFile>, failed: seq<LogFile>, rs: seq<Request>)
    requires PairedUp(rs, failed) && OneIdPerTask(files + written) && forall l <- failed :: l in files
    ensures Unwritten(rs, written) <==> exists l <- failed :: NoneOfId(written, l.taskId)
  {
    if r :| r in rs && r.task.ident !in Idents(written) {
      assert RetryOf(r, failed);
      var l :| l in failed && l.ident == r.task.ident && r.taskId == Some(l.taskId);
      SameSeries(files, written, l);
    }
    if l :| l in failed && NoneOfId(written, l.taskId) {
      SameSeries(files, written, l);
      IdentsMember(failed, l.ident);
      assert l.ident in multiset(Idents(failed));
      assert l.ident in RequestIdents(rs);
      var k :| 0 <= k < |rs| && RequestIdents(rs)[k] == l.ident;
      assert rs[k] in rs;
    }
  }

  /**
   An attempt that runs retries, for every outcome of eval whose logs are the most recent of their series, and whether or not
   older logs are removed first. It ends with success exactly when every log that was written has succeeded; work is left
   exactly when a task that was retried got no new log, or one that is not complete.
   */
  lemma RetrySuccessWithWorkLeft(args: Args, files: seq<LogFile>, stuck: set<string>, written: seq<LogFile>, which: seq<nat>)
    requires Validated(args, files).Success? && OneIdPerTask(files)
    requires Pending(args.tasks, Validated(args, files).value) == []
    requires WrittenBy(files, Requests(args, files), written, which) && Newest(files, written)
    ensures Results(args, files, written).Success?
    ensures AllSucceeded(Results(args, files, written).value) <==> AllSucceeded(written)
    ensures WorkLeft(args, FilesBeforeRun(args, files, stuck) + written) <==>
              Unwritten(Requests(args, files), written) || HasIncomplete(args, written)
  {
    var logs := Validated(args, files).value;
    FilterMember(LatestLogs(logs), IsComplete(args));
    assert forall l <- CompleteLogs(args, logs) :: IsComplete(args)(l);
    RetriesLeave(args, files, stuck, written, which);
    WorkLeftMeans(args, FilesBeforeRun(args, files, stuck) + written);
  }

  lemma RetryIdents(args: Args, files: seq<LogFile>, written: seq<LogFile>, which: seq<nat>)
    requires Validated(args, files).Success? && OneIdPerTask(files)
    requires WrittenBy(files, Requests(args, files), written, which)
    ensures forall w <- written :: w.ident in TaskIdents(args.tasks)
  {
    forall i | 0 <= i < |written| ensures written[i].ident in TaskIdents(args.tasks) {
      assert Answers(files, Requests(args, files), written, which, i);
      RequestIds(args, files, which[i]);
      TaskIdentIn(args.tasks, Requests(args, files)[which[i]].task);
    }
  }

  lemma RetriesLeave(args: Args, files: seq<LogFile>, stuck: set<string>, written: seq<LogFile>, which: seq<nat>)
    requires Validated(args, files).Success? && OneIdPerTask(files)
    requires Pending(args.tasks, Validated(args, files).value) == []
    requires WrittenBy(files, Requests(args, files), written, which) && Newest(files, written)
    ensures var after := FilesBeforeRun(args, files, stuck) + written;
      && Validated(args, after).Success? && Pending(args.tasks, Validated(args, after).value) == []
      && (StaleLog(args, after) <==> Unwritten(Requests(args, files), written) || HasIncomplete(args, written))
  {
    var logs := Validated(args, files).value;
    var keep := KeptUntilRun(args, logs, stuck);
    var after := Filter(logs, keep) + written;
    ValidatedBeforeRun(args, files, stuck);
    RetryIdents(args, files, written, which);
    ValidatedAfter(args, FilesBeforeRun(args, files, stuck), written);
    AttemptKeepsIds(files, args, stuck, written, which);
    RetriesOnePerId(args, files, written, which);
    ValidatedKnown(args, files);
    LatestIsKept(args, logs, stuck);
    forall l ensures l in LatestLogs(after)
                     <==> l in written || (l in LatestLogs(logs) && NoneOfId(written, l.taskId))
    {
      LatestAfterRetries(logs, keep, written, l);
    }
    StillNamed(files, logs, written, after);
    SubsetKeeps(files, logs);
    NonePending(args, logs, after);
    UnwrittenRetry(args, files, written);
    StaleAfterRetries(args, logs, written, after);
  }

  lemma StillNamed(files: seq<LogFile>, logs: seq<LogFile>, written: seq<LogFile>, after: seq<LogFile>)
    requires OneIdPerTask(files + written) && forall l <- logs :: l in files
    requires forall l :: l in LatestLogs(after)
                         <==> l in written || (l in LatestLogs(logs) && NoneOfId(written, l.taskId))
    ensures forall l <- LatestLogs(logs) :: exists a <- LatestLogs(after) :: a.ident == l.ident
  {
    LatestIsLatest(logs);
    forall l | l in LatestLogs(logs) ensures exists a <- LatestLogs(after) :: a.ident == l.ident {
      if w :| w in written && w.taskId == l.taskId {
        assert w in files + written && l in files + written;
        assert w in LatestLogs(after) && w.ident == l.ident;
      } else {
        assert l in LatestLogs(after);
      }
    }
  }

  lemma StaleAfterRetries(args: Args, logs: seq<LogFile>, written: seq<LogFile>, after: seq<LogFile>)
    requires forall l :: l in LatestLogs(after)
                         <==> l in written || (l in LatestLogs(logs) && NoneOfId(written, l.taskId))
    ensures HasIncomplete(args, LatestLogs(after)) <==>
              || HasIncomplete(args, written)
              || exists l <- IncompleteLogs(args, logs) :: NoneOfId(written, l.taskId)
  {
    FilterMember(LatestLogs(logs), IsIncomplete(args));
    if l :| l in IncompleteLogs(args, logs) && NoneOfId(written, l.taskId) {
      assert IsIncomplete(args)(l) && l in LatestLogs(after);
    }
    if l :| l in LatestLogs(after) && !Complete(l, args.tasks, args.epochs, args.limit) {
      assert IsIncomplete(args)(l);
    }
  }
}
