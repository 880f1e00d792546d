/** The `TaskManager` class: its state is the tasks directory, the clock and write counters that
    index the environment's answers, the processor calls made so far and `current_task`. Each
    operation is proved against the functions of `Orchestration` and `TaskStore`, and the status
    and listing queries are specified here. */
module Tasks {
  import opened Wrappers
  import opened Seqs
  import opened Text
  import opened Paths
  import opened Timestamps
  import opened Types
  import opened TaskStore
  import opened TaskPaths
  import opened Orchestration
  import opened Sorting

  // ---------------------------------------------------------------------------
  // Status queries
  // ---------------------------------------------------------------------------

  /** `processed_files / total_files`, kept as the pair it is computed from; 0 is `0 / 1`. */
  datatype Progress = Fraction(numerator: int, denominator: int)

  /** The dict `get_task_status` returns. */
  datatype StatusView = StatusView(
    taskId: string,
    taskType: TaskType,
    status: TaskStatus,
    totalFiles: int,
    processedFiles: int,
    failedFiles: int,
    progress: Progress,
    createdTime: DateTime,
    startTime: Option<DateTime>,
    endTime: Option<DateTime>)

  /** The status view of a task. Progress is 0 for a task without items, and lies between 0 and 1
      as long as the completed items do not outnumber the items. */
  function StatusOf(t: TaskInfo): (v: StatusView)
    ensures v.taskId == t.taskId && v.status == t.status && v.createdTime == t.createdTime
    ensures v.progress.denominator > 0
    ensures t.totalFiles <= 0 ==> v.progress.numerator == 0
    ensures t.totalFiles > 0 ==> v.progress == Fraction(t.processedFiles, t.totalFiles)
    ensures 0 <= t.processedFiles <= t.totalFiles ==> 0 <= v.progress.numerator <= v.progress.denominator
  {
    StatusView(t.taskId, t.taskType, t.status, t.totalFiles, t.processedFiles, t.failedFiles,
               if t.totalFiles > 0 then Fraction(t.processedFiles, t.totalFiles) else Fraction(0, 1),
               t.createdTime, t.startTime, t.endTime)
  }

  /** `get_task_status(id)` against the tasks directory: None for an unknown id, an exception for
      a file that cannot be read into a task. */
  function GetTaskStatus(prefix: string, store: map<string, TaskFile>, id: string): (r: Lookup<StatusView>)
    ensures r.NotFound? <==> TaskFileName(prefix, id) !in store
    ensures r.Found? ==> Load(prefix, store, id).Found? && r.value.taskId == Load(prefix, store, id).value.taskId
  {
    match Load(prefix, store, id)
    case NotFound => NotFound
    case Unreadable => Unreadable
    case Found(t) => Found(StatusOf(t))
  }

  /** A task just saved is reported with its own status and counters. */
  lemma StatusAfterSave(prefix: string, store: map<string, TaskFile>, t: TaskInfo)
    requires WellFormed(t)
    ensures GetTaskStatus(prefix, Saved(prefix, store, t), t.taskId) == Found(StatusOf(t))
  {
    LoadAfterSave(prefix, store, t);
  }

  /** On a fresh task that ran to completion, progress is the share of completed items, and the
      share of failed items makes up the rest. */
  lemma FreshRunProgress(env: Env, process: (Path, Path) -> Response, resume: bool, d: Disk, t: TaskInfo)
    requires WellFormed(t)
    requires forall k :: k in t.files ==> Untouched(t.files[k])
    requires t.processedFiles == 0 && t.failedFiles == 0 && t.totalFiles == |t.order| > 0
    ensures var r := StartFrom(env, process, resume, d, t);
      r.outcome == Returned(true) ==>
        var p := StatusOf(r.current.value).progress;
        && p.denominator == |t.order|
        && p.numerator + r.current.value.failedFiles == p.denominator
        && p.numerator == CountStatus(r.current.value, t.order, Done)
  {
    FreshRunTally(env, process, resume, d, t);
    StartEnds(env, process, resume, d, t);
    var r := StartFrom(env, process, resume, d, t);
    if r.outcome == Returned(true) {
      var s := LoopOf(env, process, resume, d, t);
      var t1 := Begin(env, d, t);
      RunItemsKeeps(env, process, resume, BeginDisk(d, t), t1, t1.order);
      assert r.current.value.totalFiles == t.totalFiles;
    }
  }

  // ---------------------------------------------------------------------------
  // Listing
  // ---------------------------------------------------------------------------

  /** The views `list_tasks` gathers while walking `names`, the task files the glob yields, in
      that order: one per name whose recovered id loads; an unreadable one raises. */
  function Collect(prefix: string, store: map<string, TaskFile>, names: seq<string>): Outcome<seq<StatusView>>
    decreases |names|
  {
    if |names| == 0 then Returned([])
    else
      var before := Collect(prefix, store, names[..|names| - 1]);
      if before.Raised? then Raised
      else match GetTaskStatus(prefix, store, RecoverTaskId(prefix, names[|names| - 1]))
        case NotFound => before
        case Unreadable => Raised
        case Found(v) => Returned(before.value + [v])
  }

  /** Once the walk has raised, it has raised for good. */
  lemma {:induction false} CollectRaisedStays(prefix: string, store: map<string, TaskFile>, names: seq<string>, i: nat)
    requires i <= |names| && Collect(prefix, store, names[..i]) == Raised
    ensures Collect(prefix, store, names) == Raised
    decreases |names| - i
  {
    if i < |names| {
      assert names[..i + 1][..i] == names[..i];
      CollectRaisedStays(prefix, store, names, i + 1);
    } else {
      assert names[..i] == names;
    }
  }

  /** The sort key: `created_time`. */
  function Key(v: StatusView): int {
    Ordinal(v.createdTime)
  }

  /** Newest first: created times never increase along the list. */
  predicate NewestFirst(vs: seq<StatusView>) {
    Descending(Key, vs)
  }

  /** `list_tasks()` on the glob's names: raises if any listed task file is unreadable, else the
      views of the tasks found, newest first. */
  function ListSpec(prefix: string, store: map<string, TaskFile>, names: seq<string>): Outcome<seq<StatusView>> {
    match Collect(prefix, store, names)
    case Raised => Raised
    case Returned(vs) => Returned(SortDescending(Key, vs))
  }

  /** The names the glob yields: each task file of the directory once. */
  predicate GlobListing(prefix: string, store: map<string, TaskFile>, names: seq<string>) {
    && Distinct(names)
    && (forall n :: n in names ==> n in store && MatchesTaskGlob(prefix, n))
    && (forall n :: n in store && MatchesTaskGlob(prefix, n) ==> n in names)
  }

  /** A task saved under an id that does not contain the prefix is in the listing, unless the
      listing raised. */
  lemma {:induction false} SavedTaskIsListed(prefix: string, store: map<string, TaskFile>, names: seq<string>, t: TaskInfo)
    requires |prefix| > 0 && !Contains(t.taskId, prefix) && WellFormed(t)
    requires TaskFileName(prefix, t.taskId) in names && TaskFileName(prefix, t.taskId) in store
    requires store[TaskFileName(prefix, t.taskId)] == Written(t)
    ensures Collect(prefix, store, names).Returned? ==> StatusOf(t) in Collect(prefix, store, names).value
    decreases |names|
  {
    var name := TaskFileName(prefix, t.taskId);
    var front := names[..|names| - 1];
    if names[|names| - 1] == name {
      TaskFileNameRecoversId(prefix, t.taskId);
      StatusAfterSave(prefix, store, t);
      assert Saved(prefix, store, t) == store;
      assert GetTaskStatus(prefix, store, RecoverTaskId(prefix, names[|names| - 1])) == Found(StatusOf(t));
    } else {
      assert names == front + [names[|names| - 1]];
      assert name in front;
      SavedTaskIsListed(prefix, store, front, t);
      var before := Collect(prefix, store, front);
      assert Collect(prefix, store, names).Returned? ==> before.Returned? && before.value <= Collect(prefix, store, names).value;
    }
  }

  /** Every task file written with an id that does not contain the prefix is in the listing,
      unless the listing raised. */
  lemma EveryTaskIsListed(prefix: string, store: map<string, TaskFile>, names: seq<string>, t: TaskInfo)
    requires GlobListing(prefix, store, names)
    requires |prefix| > 0 && !Contains(t.taskId, prefix) && WellFormed(t)
    requires TaskFileName(prefix, t.taskId) in store && store[TaskFileName(prefix, t.taskId)] == Written(t)
    ensures ListSpec(prefix, store, names).Returned? ==> StatusOf(t) in ListSpec(prefix, store, names).value
  {
    TaskFileNameRecoversId(prefix, t.taskId);
    SavedTaskIsListed(prefix, store, names, t);
    if Collect(prefix, store, names).Returned? {
      var vs := Collect(prefix, store, names).value;
      SortDescendingCorrect(Key, vs);
      assert StatusOf(t) in multiset(vs);
    }
  }

  /** A listing that returned is sorted newest first, holds each gathered view as often as the
      walk found it, and lists tasks created at the same moment in the order the walk found them. */
  lemma ListSpecSorted(prefix: string, store: map<string, TaskFile>, names: seq<string>)
    ensures var r := ListSpec(prefix, store, names);
      && (r.Raised? <==> Collect(prefix, store, names).Raised?)
      && (r.Returned? ==> NewestFirst(r.value) && multiset(r.value) == multiset(Collect(prefix, store, names).value))
      && (r.Returned? ==> forall c :: WithKey(Key, c, r.value) == WithKey(Key, c, Collect(prefix, store, names).value))
  {
    if Collect(prefix, store, names).Returned? {
      SortDescendingCorrect(Key, Collect(prefix, store, names).value);
    }
  }

  // ---------------------------------------------------------------------------
  // Creation
  // ---------------------------------------------------------------------------

  /** The task `create_task` builds before saving it: a fresh `TaskInfo` whose file dict holds
      one fresh record per candidate the walk `listing` yields, and whose total counts them. */
  function CreatedTask(id: string, kind: TaskType, created: DateTime, input: Path, output: Path,
                       overrides: Option<map<string, string>>, listing: seq<Path>): TaskInfo
  {
    var order := Dedup(Candidates(kind, listing));
    NewTaskInfo(id, kind, created, input, output, if overrides.Some? then overrides.value else map[])
      .(order := order, files := FreshFiles(order), totalFiles := |order|)
  }

  /** A created task is pending as a whole and item by item: status created, nothing processed
      or failed, no start, end or message; it counts its items, one per distinct candidate in the
      order the walk found them, and keeps the overrides (or none) as its config. */
  lemma CreatedTaskFacts(id: string, kind: TaskType, created: DateTime, input: Path, output: Path,
                         overrides: Option<map<string, string>>, listing: seq<Path>)
    ensures var t := CreatedTask(id, kind, created, input, output, overrides, listing);
      && t.taskId == id && t.taskType == kind && t.status == Created && t.createdTime == created
      && t.inputPath == input && t.outputPath == output
      && t.config == (if overrides.Some? then overrides.value else map[])
      && t.order == Dedup(Candidates(kind, listing)) && FreshRecords(t.order, t.files)
      && t.totalFiles == |t.order| && t.processedFiles == 0 && t.failedFiles == 0
      && t.startTime.None? && t.endTime.None? && t.errorMessage.None?
      && WellFormed(t)
      && StatusOf(t).status == Created && StatusOf(t).progress.numerator == 0
  {
    var order := Dedup(Candidates(kind, listing));
    assert FreshRecords(order, FreshFiles(order));
  }

  /** What `create_task` builds step by step is `CreatedTask`. */
  lemma CreatedTaskIs(id: string, kind: TaskType, created: DateTime, input: Path, output: Path,
                      overrides: Option<map<string, string>>, listing: seq<Path>, t: TaskInfo)
    requires var t0 := NewTaskInfo(id, kind, created, input, output, if overrides.Some? then overrides.value else map[]);
      && t.order == Dedup(Candidates(kind, listing)) && FreshRecords(t.order, t.files)
      && t == t0.(order := t.order, files := t.files, totalFiles := |t.files|)
    ensures t == CreatedTask(id, kind, created, input, output, overrides, listing)
    ensures WellFormed(t)
  {
    FreshRecordsAre(t.order, t.files);
    CreatedTaskFacts(id, kind, created, input, output, overrides, listing);
    assert t.files.Keys == set k | k in t.order;
    DistinctCard(t.order);
  }

  // ---------------------------------------------------------------------------
  // The manager
  // ---------------------------------------------------------------------------

  class TaskManager {
    /** The task file prefix from the configuration. */
    const prefix: string
    /** The n-th reading of `datetime.now()`. */
    const clock: nat -> DateTime
    /** Whether the n-th save fails, with what message, and whether it had truncated the file. */
    const writeFault: nat -> Option<SaveError>

    /** The tasks directory: file name to content. */
    var store: map<string, TaskFile>
    var readings: nat
    var writes: nat
    /** The processor calls made so far. */
    var calls: seq<Call>
    /** `current_task`. */
    var current: Option<TaskInfo>

    function Environment(): Env {
      Env(prefix, clock, writeFault)
    }

    function State(): Disk
      reads this
    {
      Disk(store, readings, writes, calls)
    }

    /** A manager over an existing tasks directory, with no current task. */
    constructor(prefix: string, clock: nat -> DateTime, writeFault: nat -> Option<SaveError>, store: map<string, TaskFile>)
      ensures this.prefix == prefix && this.clock == clock && this.writeFault == writeFault
      ensures State() == Disk(store, 0, 0, []) && current == None
    {
      this.prefix := prefix;
      this.clock := clock;
      this.writeFault := writeFault;
      this.store := store;
      readings, writes, calls := 0, 0, [];
      current := None;
    }

    /** `datetime.now()`. */
    method Now() returns (d: DateTime)
      modifies this
      ensures d == NextReading(Environment(), old(State()))
      ensures State() == Tick(old(State())) && current == old(current)
    {
      d := clock(readings);
      readings := readings + 1;
    }

    /** `_save_task(t)`; the fault is the exception the write raised, if any. */
    method SaveTask(t: TaskInfo) returns (fault: Option<SaveError>)
      modifies this
      ensures fault == writeFault(old(writes))
      ensures State() == Store(Environment(), old(State()), t) && current == old(current)
    {
      fault := writeFault(writes);
      store := AfterSave(prefix, store, t, fault);
      writes := writes + 1;
    }

    /** `create_task(kind, input, output, overrides)` with `id` as the `uuid4()` drawn and
        `listing` as what the input root's walk yields. The task saved is `CreatedTask`, which
        loads back and reports its status; a failed save raises (see `AfterSave` for the file it leaves). */
    method CreateTask(kind: TaskType, input: Path, output: Path, overrides: Option<map<string, string>>,
                      listing: seq<Path>, id: string) returns (r: Outcome<string>)
      modifies this
      ensures r == if writeFault(old(writes)).None? then Returned(id) else Raised
      ensures State() == Store(Environment(), Tick(old(State())),
                               CreatedTask(id, kind, clock(old(readings)), input, output, overrides, listing))
      ensures current == old(current)
      ensures r.Returned? ==>
        var t := CreatedTask(id, kind, clock(old(readings)), input, output, overrides, listing);
        Load(prefix, store, id) == Found(t) && GetTaskStatus(prefix, store, id) == Found(StatusOf(t))
    {
      var created := Now();
      var t := NewTaskInfo(id, kind, created, input, output, if overrides.Some? then overrides.value else map[]);
      var order, files := ScanInputFiles(kind, listing);
      t := t.(order := order, files := files);
      t := t.(totalFiles := |t.files|);
      CreatedTaskIs(id, kind, created, input, output, overrides, listing, t);
      ghost var before := store;
      var fault := SaveTask(t);
      if fault.Some? {
        return Raised;
      }
      LoadAfterSave(prefix, before, t);
      StatusAfterSave(prefix, before, t);
      r := Returned(t.taskId);
    }

    /** The `except` handlers after the loop: set the status (and the message), save, return false;
        a save failing here escapes. */
    method Handle(t: TaskInfo, status: TaskStatus, message: Option<string>) returns (r: Outcome<bool>)
      modifies this
      ensures Run(State(), current, r) == Abort(Environment(), old(State()), t, status, message)
    {
      var t1 := if message.Some? then t.(status := status, errorMessage := message) else t.(status := status);
      current := Some(t1);
      var fault := SaveTask(t1);
      r := if fault.Some? then Raised else Returned(false);
    }

    /** The per-item `try` on item `k` of `t`, as `Attempt` specifies it. */
    method TryItem(process: (Path, Path) -> Response, t: TaskInfo, k: Path) returns (t': TaskInfo, interrupted: bool)
      requires k in t.files
      modifies this
      ensures (State(), t', interrupted) == Attempt(process, old(State()), t, k)
      ensures current == old(current)
    {
      t', interrupted := t, false;
      var out := GenerateOutputPath(k, t.inputPath, t.outputPath, t.taskType);
      if out.Failure? {
        t' := ItemFailed(t, k, out.error);
      } else {
        calls := calls + [Call(k, out.value)];
        match process(k, out.value) {
          case Answer(m) =>
            if m.Some? && m.value != "" {
              t' := ItemFailed(t, k, m.value);
            } else {
              t' := ItemDone(t, k, out.value);
            }
          case Raises(m) =>
            t' := ItemFailed(t, k, m);
          case Interrupt =>
            interrupted := true;
        }
      }
    }

    /** One turn of the item loop on item `k` of `t`, as `VisitItem` specifies it. */
    method Visit(process: (Path, Path) -> Response, t: TaskInfo, k: Path) returns (t': TaskInfo, halt: Halt)
      requires k in t.files
      modifies this
      ensures Step(State(), t', halt) == VisitItem(Environment(), process, old(State()), t, k)
      ensures current == old(current)
    {
      var start := Now();
      var t1 := t.(files := t.files[k := t.files[k].(status := Processing, startTime := Some(start))]);
      var fault := SaveTask(t1);
      if fault.Some? {
        return t1, Fault(fault.value.message);
      }
      var t2, interrupted := TryItem(process, t1, k);
      var end := Now();
      t' := t2.(files := t2.files[k := t2.files[k].(endTime := Some(end))]);
      fault := SaveTask(t');
      halt := if fault.Some? then Fault(fault.value.message) else if interrupted then Interrupted else Normal;
    }

    /** The `for` loop of `start_task` over the items of `task`, as `RunItems` specifies it. */
    method RunLoop(process: (Path, Path) -> Response, resume: bool, task: TaskInfo) returns (task': TaskInfo, halt: Halt)
      requires WellFormed(task)
      modifies this
      ensures Step(State(), task', halt) == RunItems(Environment(), process, resume, old(State()), task, task.order)
      ensures current == Some(task')
    {
      ghost var d0 := State();
      var keys := task.order;
      task' := task;
      current := Some(task');
      halt := Normal;
      var i := 0;
      while i < |keys| && halt.Normal?
        invariant 0 <= i <= |keys|
        invariant task'.order == keys && task'.files.Keys == task.files.Keys
        invariant forall k :: k in keys ==> k in task'.files
        invariant halt.Normal? ==>
          RunItems(Environment(), process, resume, d0, task, keys) == RunItems(Environment(), process, resume, State(), task', keys[i..])
        invariant !halt.Normal? ==> RunItems(Environment(), process, resume, d0, task, keys) == Step(State(), task', halt)
        invariant current == Some(task')
        decreases |keys| - i
      {
        var k := keys[i];
        assert keys[i..][0] == k && keys[i..][1..] == keys[i + 1..];
        RunItemsStep(Environment(), process, resume, State(), task', keys[i..]);
        if resume && task'.files[k].status == Done {
          i := i + 1;
        } else {
          VisitItemFrame(Environment(), process, State(), task', k);
          task', halt := Visit(process, task', k);
          current := Some(task');
          i := i + 1;
        }
      }
      assert halt.Normal? ==> keys[i..] == [];
    }

    /** What follows the loop, as `Conclude` specifies it. */
    method Finish(task: TaskInfo, halt: Halt) returns (r: Outcome<bool>)
      modifies this
      ensures Run(State(), current, r) == Conclude(Environment(), old(State()), task, halt)
    {
      if halt.Normal? {
        var now := Now();
        var t1 := task.(status := Completed, endTime := Some(now));
        current := Some(t1);
        var fault := SaveTask(t1);
        if fault.None? {
          return Returned(true);
        }
        r := Handle(t1, Failed, Some(fault.value.message));
      } else if halt.Interrupted? {
        r := Handle(task, Paused, None);
      } else {
        r := Handle(task, Failed, Some(halt.message));
      }
    }

    /** `start_task(id, process, resume)`: exactly the run `StartSpec` describes. */
    method StartTask(id: string, process: (Path, Path) -> Response, resume: bool) returns (r: Outcome<bool>)
      modifies this
      ensures Run(State(), current, r) == StartSpec(Environment(), process, resume, old(State()), old(current), id)
    {
      var loaded := Load(prefix, store, id);
      if loaded.NotFound? {
        current := None;
        return Returned(false);
      }
      if loaded.Unreadable? {
        return Raised;
      }
      var t := loaded.value;
      ghost var d0 := State();
      var task := t.(status := Running);
      if task.startTime.None? {
        var now := Now();
        task := task.(startTime := Some(now));
      }
      assert task == Begin(Environment(), d0, t) && State() == BeginDisk(d0, t);
      var halt;
      task, halt := RunLoop(process, resume, task);
      r := Finish(task, halt);
    }

    /** `get_task_status` run through every name the glob yields, then the sort. */
    method ListTasks(names: seq<string>) returns (r: Outcome<seq<StatusView>>)
      ensures r == ListSpec(prefix, store, names)
      ensures r.Returned? ==> NewestFirst(r.value)
    {
      var found: seq<StatusView> := [];
      var i := 0;
      while i < |names|
        invariant 0 <= i <= |names|
        invariant Collect(prefix, store, names[..i]) == Returned(found)
      {
        assert names[..i + 1][..i] == names[..i];
        var status := GetTaskStatus(prefix, store, RecoverTaskId(prefix, names[i]));
        if status.Unreadable? {
          CollectRaisedStays(prefix, store, names, i + 1);
          return Raised;
        }
        if status.Found? {
          found := found + [status.value];
        }
        i := i + 1;
      }
      assert names[..i] == names;
      ListSpecSorted(prefix, store, names);
      r := Returned(SortDescending(Key, found));
    }

    /** `cancel_task(id)`: an unknown id returns false, an unreadable file raises, both without
        change; a found task is saved as cancelled, whatever its status, under the id it holds. */
    method CancelTask(id: string) returns (r: Outcome<bool>)
      modifies this
      ensures current == old(current)
      ensures match Load(prefix, old(store), id)
        case NotFound => r == Returned(false) && State() == old(State())
        case Unreadable => r == Raised && State() == old(State())
        case Found(t) =>
          && State() == Store(Environment(), old(State()), t.(status := Cancelled))
          && r == (if writeFault(old(writes)).None? then Returned(true) else Raised)
          && (r.Returned? ==> GetTaskStatus(prefix, store, t.taskId) == Found(StatusOf(t.(status := Cancelled))))
    {
      var loaded := Load(prefix, store, id);
      if loaded.NotFound? {
        return Returned(false);
      }
      if loaded.Unreadable? {
        return Raised;
      }
      var task := loaded.value.(status := Cancelled);
      ghost var before := store;
      var fault := SaveTask(task);
      if fault.Some? {
        return Raised;
      }
      StatusAfterSave(prefix, before, task);
      r := Returned(true);
    }
  }
}
