/**
 The eval-set protocol over a directory of log files: run the tasks that have no log yet, else retry the tasks whose
 latest log is incomplete, and remove logs that are no longer the latest.
 */
module EvalSet {
  import opened Sequences
  import opened Wrappers

  datatype Status = Started | Succeeded | Cancelled | Errored

  /** reducer holds the names of the reducers; None stands for the default. */
  datatype Epochs = Epochs(epochs: int, reducer: Option<seq<string>>)

  datatype EvalConfig = EvalConfig(epochs: Option<int>, reducer: Option<seq<string>>)

  /** A log file: `name` in the directory, the identifier of its task, the id of the task's series of logs. */
  datatype LogFile = LogFile(
    name: string, ident: string, taskId: string, mtime: Option<int>,
    status: Status, invalidated: bool, totalSamples: Option<int>, config: EvalConfig)

  datatype Task = Task(ident: string, epochs: Option<int>, datasetSize: nat)

  datatype Limit = NoLimit | First(n: int) | Range(start: int, stop: int)

  datatype Error = NotDistinct | NotInSet | TaskMissing

  function Time(f: LogFile): int {
    match f.mtime case Some(t) => t case None => 0
  }

  function Idents(logs: seq<LogFile>): seq<string> {
    seq(|logs|, i requires 0 <= i < |logs| => logs[i].ident)
  }

  predicate UniqueNames(files: seq<LogFile>) {
    forall i, j :: 0 <= i < j < |files| ==> files[i].name != files[j].name
  }

  // The tests that lists of logs and tasks are filtered by.

  function ByTaskId(id: string): LogFile -> bool { (f: LogFile) => f.taskId == id }
  function TaskIdIn(ids: set<string>): LogFile -> bool { (f: LogFile) => f.taskId in ids }
  function IdentIn(idents: seq<string>): LogFile -> bool { (f: LogFile) => f.ident in idents }
  function TaskIn(idents: seq<string>): Task -> bool { (t: Task) => t.ident in idents }
  function TaskNotIn(idents: seq<string>): Task -> bool { (t: Task) => t.ident !in idents }
  function Survives(logs: seq<LogFile>, stuck: set<string>): LogFile -> bool { (f: LogFile) => !Doomed(logs, stuck, f) }
  function IsComplete(args: Args): LogFile -> bool {
    (l: LogFile) => Complete(l, args.tasks, args.epochs, args.limit)
  }
  function IsIncomplete(args: Args): LogFile -> bool {
    (l: LogFile) => !Complete(l, args.tasks, args.epochs, args.limit)
  }

  // ----- the latest log of each task id ------------------------------------------------------------------

  /** First of the most recent: a stable sort by time, most recent first, puts it in front. */
  function FirstMax(logs: seq<LogFile>): LogFile
    requires logs != []
  {
    var n := |logs| - 1;
    if n == 0 then logs[0]
    else
      var best := FirstMax(logs[..n]);
      if Time(logs[n]) > Time(best) then logs[n] else best
  }

  function OfId(logs: seq<LogFile>, id: string): seq<LogFile> {
    Filter(logs, ByTaskId(id))
  }

  /** The task ids of a list of logs, in order of first appearance. */
  function Ids(logs: seq<LogFile>): seq<string> {
    if logs == [] then []
    else
      var ids, id := Ids(logs[..|logs| - 1]), logs[|logs| - 1].taskId;
      if id in ids then ids else ids + [id]
  }

  function LatestFor(logs: seq<LogFile>, ids: seq<string>): (r: seq<LogFile>)
    requires forall id <- ids :: OfId(logs, id) != []
    ensures |r| == |ids| && forall i :: 0 <= i < |r| ==> r[i] == FirstMax(OfId(logs, ids[i]))
  {
    if ids == [] then []
    else LatestFor(logs, ids[..|ids| - 1]) + [FirstMax(OfId(logs, ids[|ids| - 1]))]
  }

  function LatestLogs(logs: seq<LogFile>): seq<LogFile> {
    IdsHaveLogs(logs);
    LatestFor(logs, Ids(logs))
  }

  /** Removed by a cleanup of these logs. A file that cannot be removed is only warned about. */
  predicate Doomed(logs: seq<LogFile>, stuck: set<string>, f: LogFile) {
    && f in logs && f.status != Started && f.name !in stuck
    && OfId(logs, f.taskId) != [] && f != FirstMax(OfId(logs, f.taskId))
  }

  function Cleaned(files: seq<LogFile>, logs: seq<LogFile>, stuck: set<string>): seq<LogFile> {
    Filter(files, Survives(logs, stuck))
  }

  // ----- which logs are complete -------------------------------------------------------------------------

  function Names(r: Option<seq<string>>): seq<string> {
    match r case Some(ns) => ns case None => []
  }

  function EpochsChanged(epochs: Option<Epochs>, config: EvalConfig): bool {
    if epochs.None? then false
    else if config.epochs.None? then true
    else if epochs.value.epochs != config.epochs.value then true
    else if epochs.value.reducer.None? && config.reducer == Some(["mean"]) then false
    else Names(epochs.value.reducer) != Names(config.reducer)
  }

  function LimitedCount(size: nat, limit: Limit): int {
    match limit
    case NoLimit => size
    case First(n) => if n < size then n else size
    case Range(start, stop) => if start >= size then 0 else (if stop < size then stop else size) - start
  }

  /** The limit lets the sample at position i of a dataset be run. */
  predicate Selects(limit: Limit, i: nat) {
    match limit
    case NoLimit => true
    case First(n) => i < n
    case Range(start, stop) => start <= i < stop
  }

  function Selected(size: nat, limit: Limit): set<nat> {
    set i: nat | i < size && Selects(limit, i)
  }

  /** No negative number of samples, and no range that ends before it starts or starts before the first sample. */
  predicate Sensible(size: nat, limit: Limit) {
    match limit
    case NoLimit => true
    case First(n) => 0 <= n
    case Range(start, stop) => start >= size || start == stop || 0 <= start <= stop
  }

  function FindTask(tasks: seq<Task>, ident: string): Option<Task> {
    if tasks == [] then None
    else if tasks[0].ident == ident then Some(tasks[0])
    else FindTask(tasks[1..], ident)
  }

  function TaskEpochs(t: Task): Epochs {
    Epochs(match t.epochs case Some(n) => if n == 0 then 1 else n case None => 1, None)
  }

  function SamplesComplete(log: LogFile, tasks: seq<Task>, epochs: Option<Epochs>, limit: Limit): Result<bool, Error> {
    if log.totalSamples.None? then Success(false)
    else
      match FindTask(tasks, log.ident)
      case None => Failure(TaskMissing)
      case Some(task) =>
        var e := if epochs.Some? then epochs.value else TaskEpochs(task);
        if EpochsChanged(Some(e), log.config) then Success(false)
        else Success(log.totalSamples.value >= LimitedCount(task.datasetSize, limit) * e.epochs)
  }

  /** Whether a latest log still needs work, tested in the order of list_latest_eval_logs. */
  function NeedsWork(log: LogFile, tasks: seq<Task>, epochs: Option<Epochs>, limit: Limit): Result<bool, Error> {
    if EpochsChanged(epochs, log.config) then Success(true)
    else if log.status != Succeeded then Success(true)
    else if log.invalidated then Success(true)
    else match SamplesComplete(log, tasks, epochs, limit)
         case Failure(e) => Failure(e)
         case Success(b) => Success(!b)
  }

  /** What a complete log is, independently of the order of the tests. */
  predicate Complete(log: LogFile, tasks: seq<Task>, epochs: Option<Epochs>, limit: Limit) {
    && log.status == Succeeded && !log.invalidated && log.totalSamples.Some?
    && var task := FindTask(tasks, log.ident);
       task.Some? &&
       var e := if epochs.Some? then epochs.value else TaskEpochs(task.value);
       && ConfigMatches(e, log.config)
       && log.totalSamples.value >= LimitedCount(task.value.datasetSize, limit) * e.epochs
  }

  /** The log was made with these epochs, and with these reducers or the default one for both. */
  predicate ConfigMatches(e: Epochs, config: EvalConfig) {
    && config.epochs == Some(e.epochs)
    && (Names(e.reducer) == Names(config.reducer) || (e.reducer == None && config.reducer == Some(["mean"])))
  }

  /** Every log of these has a task among these. */
  predicate Known(logs: seq<LogFile>, tasks: seq<Task>) {
    forall l <- logs :: FindTask(tasks, l.ident).Some?
  }

  // ----- one attempt ---------------------------------------------------------------------------------------

  datatype Args = Args(tasks: seq<Task>, dirty: bool, epochs: Option<Epochs>, limit: Limit, cleanup: bool)

  /** A task handed to eval: with the id of an earlier series of logs when it is a retry. */
  datatype Request = Request(task: Task, taskId: Option<string>)

  function TaskIdents(tasks: seq<Task>): seq<string> {
    seq(|tasks|, i requires 0 <= i < |tasks| => tasks[i].ident)
  }

  function Validated(args: Args, files: seq<LogFile>): Result<seq<LogFile>, Error> {
    if !Distinct(TaskIdents(args.tasks)) then Failure(NotDistinct)
    else if args.dirty then Success(Filter(files, IdentIn(TaskIdents(args.tasks))))
    else if exists f <- files :: f.ident !in TaskIdents(args.tasks) then Failure(NotInSet)
    else Success(files)
  }

  function Pending(tasks: seq<Task>, logs: seq<LogFile>): seq<Task> {
    Filter(tasks, TaskNotIn(Idents(logs)))
  }

  function CompleteLogs(args: Args, logs: seq<LogFile>): seq<LogFile> {
    Filter(LatestLogs(logs), IsComplete(args))
  }

  function IncompleteLogs(args: Args, logs: seq<LogFile>): seq<LogFile> {
    Filter(LatestLogs(logs), IsIncomplete(args))
  }

  function FailedTasks(tasks: seq<Task>, failed: seq<LogFile>): seq<Task> {
    Filter(tasks, TaskIn(Idents(failed)))
  }

  /** The first failed log of a task. */
  function LogOf(failed: seq<LogFile>, ident: string): Option<LogFile> {
    if failed == [] then None else if failed[0].ident == ident then Some(failed[0]) else LogOf(failed[1..], ident)
  }

  function Retry(t: Task, failed: seq<LogFile>): Request {
    Request(t, match LogOf(failed, t.ident) case Some(l) => Some(l.taskId) case None => None)
  }

  function Retries(tasks: seq<Task>, failed: seq<LogFile>): seq<Request> {
    seq(|tasks|, i requires 0 <= i < |tasks| => Retry(tasks[i], failed))
  }

  function FirstRuns(tasks: seq<Task>): seq<Request> {
    seq(|tasks|, i requires 0 <= i < |tasks| => Request(tasks[i], None))
  }

  /** What an attempt asks eval to run, when it finds these files. */
  function Requests(args: Args, files: seq<LogFile>): seq<Request> {
    match Validated(args, files)
    case Failure(_) => []
    case Success(logs) =>
      if Pending(args.tasks, logs) != [] then FirstRuns(Pending(args.tasks, logs))
      else Retries(FailedTasks(args.tasks, IncompleteLogs(args, logs)), IncompleteLogs(args, logs))
  }

  /** The files before eval runs: a retry first removes older logs when asked to. */
  function FilesBeforeRun(args: Args, files: seq<LogFile>, stuck: set<string>): seq<LogFile> {
    match Validated(args, files)
    case Failure(_) => files
    case Success(logs) =>
      if Pending(args.tasks, logs) == [] && args.cleanup then Cleaned(files, logs, stuck) else files
  }

  /**
   What eval may write for the requests: at most one new log for each, under a new name, for the request's task, with
   the requested task id or else one that is new. written[i] belongs to requests[which[i]].
   */
  ghost predicate WrittenBy(files: seq<LogFile>, requests: seq<Request>, written: seq<LogFile>, which: seq<nat>) {
    && |which| == |written| && Distinct(which)
    && UniqueNames(files + written)
    && (forall i :: 0 <= i < |written| ==> Answers(files, requests, written, which, i))
  }

  ghost predicate Answers(files: seq<LogFile>, requests: seq<Request>, written: seq<LogFile>, which: seq<nat>, i: nat)
    requires |which| == |written| && i < |written|
  {
    && which[i] < |requests|
    && var r := requests[which[i]];
       && written[i].ident == r.task.ident
       && match r.taskId
          case Some(id) => written[i].taskId == id
          case None =>
            && (forall f <- files :: f.taskId != written[i].taskId)
            && (forall j :: 0 <= j < |written| && j != i ==> written[j].taskId != written[i].taskId)
  }

  /** The logs an attempt returns, when it does not fail. */
  function Results(args: Args, files: seq<LogFile>, written: seq<LogFile>): Result<seq<LogFile>, Error> {
    match Validated(args, files)
    case Failure(e) => Failure(e)
    case Success(logs) =>
      var pending := Pending(args.tasks, logs);
      if pending != [] then
        Success(if |pending| == |args.tasks| then written else LatestLogs(files + written))
      else
        Success(CompleteLogs(args, logs) + written)
  }

  // ----- lemmas the definitions need --------------------------------------------------------------------------

  lemma {:induction false} IdsAreTaskIds(logs: seq<LogFile>)
    ensures forall id :: id in Ids(logs) <==> exists f <- logs :: f.taskId == id
    ensures Distinct(Ids(logs))
  {
    if logs != [] {
      var n := |logs| - 1;
      IdsAreTaskIds(logs[..n]);
      assert logs == logs[..n] + [logs[n]];
    }
  }

  lemma IdsHaveLogs(logs: seq<LogFile>)
    ensures forall id <- Ids(logs) :: OfId(logs, id) != []
  {
    IdsAreTaskIds(logs);
    forall id | id in Ids(logs) ensures OfId(logs, id) != [] {
      FilterMember(logs, ByTaskId(id));
    }
  }

  predicate Between(a: nat, i: nat, b: nat) {
    a <= i < b
  }

  function Interval(a: nat, b: nat): set<nat> {
    set i: nat | i < b && Between(a, i, b)
  }

  lemma {:induction false} IntervalSize(a: nat, b: nat)
    requires a <= b
    ensures |Interval(a, b)| == b - a
  {
    if a < b {
      IntervalSize(a, b - 1);
      forall i: nat ensures i in Interval(a, b) <==> i in Interval(a, b - 1) + {b - 1} {
        assert Between(a, i, b) <==> Between(a, i, b - 1) || i == b - 1;
      }
      assert Interval(a, b) == Interval(a, b - 1) + {b - 1};
    } else {
      assert Interval(a, b) == {};
    }
  }

  /** The positions that a limit selects, as an interval. */
  lemma SelectedInterval(size: nat, limit: Limit) returns (a: nat, b: nat)
    ensures a <= b && Selected(size, limit) == Interval(a, b)
    ensures limit.NoLimit? ==> a == 0 && b == size
    ensures limit.First? ==> a == 0 && b == if limit.n < 0 then 0 else if limit.n < size then limit.n else size
    ensures limit.Range? ==>
      var low, high := if limit.start < 0 then 0 else limit.start, if limit.stop < size then limit.stop else size;
      b - a == if low <= high then high - low else 0
  {
    match limit
    case NoLimit => a, b := 0, size;
    case First(n) => a, b := 0, if n < 0 then 0 else if n < size then n else size;
    case Range(start, stop) =>
      var low, high := if start < 0 then 0 else start, if stop < size then stop else size;
      a, b := low, if low <= high then high else low;
    forall i: nat ensures i in Selected(size, limit) <==> i in Interval(a, b) {
      assert Between(a, i, b) <==> i < size && Selects(limit, i);
    }
  }

  /** The count of the code is the number of samples that the limit selects exactly when the limit is sensible. */
  lemma CountsSelected(size: nat, limit: Limit)
    ensures LimitedCount(size, limit) == |Selected(size, limit)| <==> Sensible(size, limit)
  {
    var a, b := SelectedInterval(size, limit);
    IntervalSize(a, b);
  }

  lemma {:induction false} FirstMaxIsMax(logs: seq<LogFile>)
    requires logs != []
    ensures FirstMax(logs) in logs && forall f <- logs :: Time(f) <= Time(FirstMax(logs))
  {
    var n := |logs| - 1;
    if n > 0 { FirstMaxIsMax(logs[..n]); }
    var m := FirstMax(logs);
    assert n > 0 ==> FirstMax(logs[..n]) in logs[..n];
    forall f | f in logs ensures Time(f) <= Time(m) {
      if f != logs[n] { InInit(logs, f); }
    }
  }

  lemma InInit(logs: seq<LogFile>, f: LogFile)
    requires f in logs && f != logs[|logs| - 1]
    ensures f in logs[..|logs| - 1]
  {
  }

  /** The latest log of each id: one of its logs, none of which is more recent. */
  lemma LatestIsLatest(logs: seq<LogFile>)
    ensures |LatestLogs(logs)| == |Ids(logs)|
    ensures forall i :: 0 <= i < |Ids(logs)| ==>
      var l := LatestLogs(logs)[i];
      l in logs && l.taskId == Ids(logs)[i] && forall f <- logs :: f.taskId == l.taskId ==> Time(f) <= Time(l)
  {
    IdsHaveLogs(logs);
    forall i | 0 <= i < |Ids(logs)|
      ensures var l := LatestLogs(logs)[i];
              l in logs && l.taskId == Ids(logs)[i] && forall f <- logs :: f.taskId == l.taskId ==> Time(f) <= Time(l)
    {
      var id := Ids(logs)[i];
      FirstMaxIsMax(OfId(logs, id));
      FilterMember(logs, ByTaskId(id));
    }
  }

  /** The latest log by the times of its files, where a file without a time counts as one of time zero. */
  lemma LatestByTime(logs: seq<LogFile>, l: LogFile, f: LogFile)
    requires l in LatestLogs(logs) && f in logs && f.taskId == l.taskId
    ensures f.mtime.Some? && l.mtime.Some? ==> f.mtime.value <= l.mtime.value
    ensures f.mtime.Some? && l.mtime.None? ==> f.mtime.value <= 0
    ensures f.mtime.None? && l.mtime.Some? ==> 0 <= l.mtime.value
  {
    LatestIsLatest(logs);
  }

  /** Of several logs with the latest time the first is taken. */
  lemma {:induction false} FirstMaxIsFirst(logs: seq<LogFile>) returns (i: nat)
    requires logs != []
    ensures i < |logs| && logs[i] == FirstMax(logs) && forall j :: 0 <= j < i ==> Time(logs[j]) < Time(logs[i])
  {
    var n := |logs| - 1;
    FirstMaxIsMax(logs);
    if n == 0 {
      i := 0;
    } else {
      var p := logs[..n];
      FirstMaxIsMax(p);
      if Time(logs[n]) > Time(FirstMax(p)) {
        i := n;
        forall j | 0 <= j < n ensures Time(logs[j]) < Time(logs[n]) { assert logs[j] in p; }
      } else {
        i := FirstMaxIsFirst(p);
      }
    }
  }

  lemma {:induction false} FindTaskFinds(tasks: seq<Task>, ident: string)
    ensures FindTask(tasks, ident).Some? <==> ident in TaskIdents(tasks)
    ensures FindTask(tasks, ident).Some? ==>
              FindTask(tasks, ident).value in tasks && FindTask(tasks, ident).value.ident == ident
  {
    if tasks != [] {
      FindTaskFinds(tasks[1..], ident);
      assert TaskIdents(tasks) == [tasks[0].ident] + TaskIdents(tasks[1..]);
    }
  }
}
