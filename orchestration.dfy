/** What one run of `start_task` does, as a function of the task store, the environment and the
    processor's answers: the specification the `TaskManager` class is proved against, and the
    properties of a run. */
module Orchestration {
  import opened Wrappers
  import opened Seqs
  import opened Paths
  import opened Timestamps
  import opened Types
  import opened TaskStore
  import opened TaskPaths

  /** What the task manager cannot see: its file prefix, what `datetime.now()` returns on its n-th
      reading, and whether the n-th save fails, and with what message. */
  datatype Env = Env(prefix: string, clock: nat -> DateTime, writeFault: nat -> Option<SaveError>)

  /** One call of the processor: the item and the output path it was given. */
  datatype Call = Call(input: Path, output: Path)

  /** The state a run changes: the tasks directory, how often the clock has been read and the store
      written, and the calls made to the processor so far. */
  datatype Disk = Disk(store: map<string, TaskFile>, readings: nat, writes: nat, calls: seq<Call>)

  /** What the processor does with an item: return a message (None or empty for success), raise an
      `Exception` with a message, or raise `KeyboardInterrupt`. */
  datatype Response = Answer(reply: Option<string>) | Raises(message: string) | Interrupt

  /** How the item loop stopped: it finished, an interrupt reached it, or an exception outside the
      per-item handler did. */
  datatype Halt = Normal | Interrupted | Fault(message: string)

  /** What a call of a manager operation produces: a value, or an exception escaping it. */
  datatype Outcome<T> = Returned(value: T) | Raised

  /** The state after one visit of an item, and how the loop goes on. */
  datatype Step = Step(disk: Disk, task: TaskInfo, halt: Halt)

  /** The state after a whole `start_task`: the store, `current_task`, and what the call produced. */
  datatype Run = Run(disk: Disk, current: Option<TaskInfo>, outcome: Outcome<bool>)

  // ---------------------------------------------------------------------------
  // Effects
  // ---------------------------------------------------------------------------

  /** The reading `datetime.now()` gives next. */
  function NextReading(env: Env, d: Disk): DateTime {
    env.clock(d.readings)
  }

  /** The state after the clock was read once. */
  function Tick(d: Disk): (r: Disk)
    ensures r.readings == d.readings + 1
  {
    d.(readings := d.readings + 1)
  }

  /** The state after `_save_task(t)`, the save failing or not as the environment says. */
  function Store(env: Env, d: Disk, t: TaskInfo): (r: Disk)
    ensures r.writes == d.writes + 1 && r.readings == d.readings && r.calls == d.calls
  {
    d.(store := AfterSave(env.prefix, d.store, t, env.writeFault(d.writes)), writes := d.writes + 1)
  }

  // ---------------------------------------------------------------------------
  // One item
  // ---------------------------------------------------------------------------

  /** The task with item `k` recorded as failed with `message`, and one more failure counted. */
  function ItemFailed(t: TaskInfo, k: Path, message: string): TaskInfo
    requires k in t.files
  {
    t.(files := t.files[k := t.files[k].(status := Errored, errorMessage := Some(message))],
       failedFiles := t.failedFiles + 1)
  }

  /** The task with item `k` recorded as completed into `out`, and one more success counted. */
  function ItemDone(t: TaskInfo, k: Path, out: Path): TaskInfo
    requires k in t.files
  {
    t.(files := t.files[k := t.files[k].(status := Done, outputPath := Some(out))],
       processedFiles := t.processedFiles + 1)
  }

  /** `_generate_output_path` succeeds for item `k` of `t`, so the item reaches the processor. */
  predicate Mappable(t: TaskInfo, k: Path) {
    GenerateOutputPath(k, t.inputPath, t.outputPath, t.taskType).Success?
  }

  /** The body of the per-item `try`: map the output path, call the processor, record the answer.
      The flag says a `KeyboardInterrupt` left the `try` unhandled. */
  function Attempt(process: (Path, Path) -> Response, d: Disk, t: TaskInfo, k: Path): (r: (Disk, TaskInfo, bool))
    requires k in t.files
    ensures r.1.files.Keys == t.files.Keys && SameHeader(t, r.1)
    ensures forall j :: j in t.files && j != k ==> r.1.files[j] == t.files[j]
    ensures r.1.files[k].filePath == t.files[k].filePath && r.1.files[k].startTime == t.files[k].startTime
    ensures r.0.readings == d.readings && r.0.writes == d.writes && r.0.store == d.store
    ensures d.calls <= r.0.calls && |r.0.calls| <= |d.calls| + 1
    ensures forall i :: |d.calls| <= i < |r.0.calls| ==> r.0.calls[i].input == k
    ensures |r.0.calls| == |d.calls| + 1 <==> Mappable(t, k)
    ensures !r.2 ==>
      || (r.1.files[k].status == Done && r.1.files[k].outputPath.Some?
          && r.1.processedFiles == t.processedFiles + 1 && r.1.failedFiles == t.failedFiles)
      || (r.1.files[k].status == Errored && r.1.files[k].errorMessage.Some?
          && r.1.failedFiles == t.failedFiles + 1 && r.1.processedFiles == t.processedFiles)
    ensures r.2 ==> r.1 == t
  {
    var out := GenerateOutputPath(k, t.inputPath, t.outputPath, t.taskType);
    if out.Failure? then (d, ItemFailed(t, k, out.error), false)
    else
      var called := d.(calls := d.calls + [Call(k, out.value)]);
      match process(k, out.value)
      case Answer(m) =>
        if m.Some? && m.value != "" then (called, ItemFailed(t, k, m.value), false)
        else (called, ItemDone(t, k, out.value), false)
      case Raises(m) => (called, ItemFailed(t, k, m), false)
      case Interrupt => (called, t, true)
  }

  /** One turn of the item loop on item `k`: mark it processing and save; attempt it; then, in the
      `finally`, stamp its end time and save again. A failed save is an exception outside the
      per-item handler; raised in the `finally`, it replaces a pending interrupt. */
  function VisitItem(env: Env, process: (Path, Path) -> Response, d: Disk, t: TaskInfo, k: Path): (r: Step)
    requires k in t.files
    ensures r.task.files.Keys == t.files.Keys
  {
    var t1 := t.(files := t.files[k := t.files[k].(status := Processing, startTime := Some(NextReading(env, d)))]);
    var d1 := Tick(d);
    var d2 := Store(env, d1, t1);
    if env.writeFault(d1.writes).Some? then Step(d2, t1, Fault(env.writeFault(d1.writes).value.message))
    else
      var (d3, t2, interrupted) := Attempt(process, d2, t1, k);
      var t3 := t2.(files := t2.files[k := t2.files[k].(endTime := Some(NextReading(env, d3)))]);
      var d4 := Tick(d3);
      var d5 := Store(env, d4, t3);
      var halt := if env.writeFault(d4.writes).Some? then Fault(env.writeFault(d4.writes).value.message)
                  else if interrupted then Interrupted else Normal;
      Step(d5, t3, halt)
  }

  /** Whether the loop passes over item `k` without touching it. */
  predicate Skipped(resume: bool, t: TaskInfo, k: Path)
    requires k in t.files
  {
    resume && t.files[k].status == Done
  }

  /** The item loop over `keys`, in order, until it finishes or stops. */
  function RunItems(env: Env, process: (Path, Path) -> Response, resume: bool, d: Disk, t: TaskInfo, keys: seq<Path>): (r: Step)
    requires forall k :: k in keys ==> k in t.files
    ensures r.task.files.Keys == t.files.Keys
    decreases |keys|
  {
    if |keys| == 0 then Step(d, t, Normal)
    else if Skipped(resume, t, keys[0]) then RunItems(env, process, resume, d, t, keys[1..])
    else
      var s := VisitItem(env, process, d, t, keys[0]);
      if s.halt.Normal? then RunItems(env, process, resume, s.disk, s.task, keys[1..]) else s
  }

  /** The `except KeyboardInterrupt` or `except Exception` handler: mark the task and save. A save
      failing in a handler escapes `start_task`. */
  function Abort(env: Env, d: Disk, t: TaskInfo, status: TaskStatus, message: Option<string>): (r: Run)
  {
    var t1 := if message.Some? then t.(status := status, errorMessage := message) else t.(status := status);
    Run(Store(env, d, t1), Some(t1), if env.writeFault(d.writes).Some? then Raised else Returned(false))
  }

  /** What follows the item loop: on a normal finish the task is completed, stamped and saved (a
      failed save there is handled as any other exception); an interrupt pauses it; an exception
      fails it with its message. */
  function Conclude(env: Env, d: Disk, t: TaskInfo, halt: Halt): (r: Run)
  {
    match halt
    case Normal =>
      var t1 := t.(status := Completed, endTime := Some(NextReading(env, d)));
      var d1 := Tick(d);
      if env.writeFault(d1.writes).None? then Run(Store(env, d1, t1), Some(t1), Returned(true))
      else Abort(env, Store(env, d1, t1), t1, Failed, Some(env.writeFault(d1.writes).value.message))
    case Interrupted => Abort(env, d, t, Paused, None)
    case Fault(m) => Abort(env, d, t, Failed, Some(m))
  }

  /** The task as the run begins: running, and stamped with a start time unless it already has one. */
  function Begin(env: Env, d: Disk, t: TaskInfo): TaskInfo {
    t.(status := Running, startTime := if t.startTime.None? then Some(NextReading(env, d)) else t.startTime)
  }

  /** The state after the run has begun: the clock is read only when the start time is stamped. */
  function BeginDisk(d: Disk, t: TaskInfo): Disk {
    if t.startTime.None? then Tick(d) else d
  }

  /** `start_task(id, process, resume)`, from the state `d` with `current` as `current_task`. */
  function StartSpec(env: Env, process: (Path, Path) -> Response, resume: bool, d: Disk,
                     current: Option<TaskInfo>, id: string): (r: Run)
  {
    match Load(env.prefix, d.store, id)
    case NotFound => Run(d, None, Returned(false))
    case Unreadable => Run(d, current, Raised)
    case Found(t) => StartFrom(env, process, resume, d, t)
  }

  /** The run of a loaded, well-formed task `t`. */
  function StartFrom(env: Env, process: (Path, Path) -> Response, resume: bool, d: Disk, t: TaskInfo): (r: Run)
    requires WellFormed(t)
  {
    var t1 := Begin(env, d, t);
    var s := RunItems(env, process, resume, BeginDisk(d, t), t1, t1.order);
    Conclude(env, s.disk, s.task, s.halt)
  }

  /** The loop of the run of `t`. */
  function LoopOf(env: Env, process: (Path, Path) -> Response, resume: bool, d: Disk, t: TaskInfo): (s: Step)
    requires WellFormed(t)
  {
    var t1 := Begin(env, d, t);
    RunItems(env, process, resume, BeginDisk(d, t), t1, t1.order)
  }

  // ---------------------------------------------------------------------------
  // Properties of one visit
  // ---------------------------------------------------------------------------

  /** The tasks directory of `d` holds `t` in `t`'s file, as a save that succeeded leaves it. */
  predicate Checkpointed(env: Env, d: Disk, t: TaskInfo) {
    TaskFileName(env.prefix, t.taskId) in d.store && d.store[TaskFileName(env.prefix, t.taskId)] == Written(t)
  }

  /** A checkpointed well-formed task is what `load_task` reads back. */
  lemma CheckpointLoads(env: Env, d: Disk, t: TaskInfo)
    requires WellFormed(t) && Checkpointed(env, d, t)
    ensures Load(env.prefix, d.store, t.taskId) == Found(t)
  {
    assert d.store == Saved(env.prefix, d.store, t);
    LoadAfterSave(env.prefix, d.store, t);
  }

  /** The fields of a task the item loop never touches. */
  predicate SameHeader(a: TaskInfo, b: TaskInfo) {
    && a.taskId == b.taskId && a.taskType == b.taskType && a.status == b.status
    && a.createdTime == b.createdTime && a.startTime == b.startTime && a.endTime == b.endTime
    && a.inputPath == b.inputPath && a.outputPath == b.outputPath && a.totalFiles == b.totalFiles
    && a.order == b.order && a.config == b.config && a.errorMessage == b.errorMessage
  }

  /** A visit changes only item `k`'s record and the two counters, and only by appending to the calls. */
  lemma VisitItemFrame(env: Env, process: (Path, Path) -> Response, d: Disk, t: TaskInfo, k: Path)
    requires k in t.files
    ensures var s := VisitItem(env, process, d, t, k);
      && SameHeader(t, s.task)
      && (forall j :: j in t.files && j != k ==> s.task.files[j] == t.files[j])
      && s.task.files[k].filePath == t.files[k].filePath
      && s.task.files[k].startTime == Some(env.clock(d.readings))
      && d.calls <= s.disk.calls
      && (forall i :: |d.calls| <= i < |s.disk.calls| ==> s.disk.calls[i].input == k)
      && s.disk.readings >= d.readings
  {
  }

  /** A visit that lets the loop go on leaves its item completed, with its output path, or failed,
      with a message; exactly one counter rises by one, and the end time is stamped. */
  lemma VisitItemOutcome(env: Env, process: (Path, Path) -> Response, d: Disk, t: TaskInfo, k: Path)
    requires k in t.files
    ensures var s := VisitItem(env, process, d, t, k);
      var r := s.task.files[k];
      s.halt.Normal? ==>
        && r.endTime.Some?
        && ((r.status == Done && r.outputPath.Some?
             && s.task.processedFiles == t.processedFiles + 1 && s.task.failedFiles == t.failedFiles)
         || (r.status == Errored && r.errorMessage.Some?
             && s.task.failedFiles == t.failedFiles + 1 && s.task.processedFiles == t.processedFiles))
  {
  }

  /** A visit that ends without an exception, whether the loop goes on or was interrupted, leaves
      the task it produced in the task's file: each item's progress is saved as it happens. */
  lemma VisitItemSaves(env: Env, process: (Path, Path) -> Response, d: Disk, t: TaskInfo, k: Path)
    requires k in t.files
    ensures var s := VisitItem(env, process, d, t, k);
      !s.halt.Fault? ==> s.task.taskId == t.taskId && Checkpointed(env, s.disk, s.task)
  {
  }

  /** A visit that lets the loop go on has called the processor once if the item's output path
      could be derived, and not at all otherwise. */
  lemma VisitItemCalls(env: Env, process: (Path, Path) -> Response, d: Disk, t: TaskInfo, k: Path)
    requires k in t.files
    ensures var s := VisitItem(env, process, d, t, k);
      s.halt.Normal? ==> (|s.disk.calls| == |d.calls| + 1 <==> Mappable(t, k))
  {
  }

  /** An interrupt leaves the item processing, with its end time stamped, and counts nothing. */
  lemma VisitItemInterrupted(env: Env, process: (Path, Path) -> Response, d: Disk, t: TaskInfo, k: Path)
    requires k in t.files
    ensures var s := VisitItem(env, process, d, t, k);
      s.halt.Interrupted? ==>
        && s.task.files[k].status == Processing && s.task.files[k].endTime.Some?
        && s.task.processedFiles == t.processedFiles && s.task.failedFiles == t.failedFiles
  {
  }

  /** An item whose output path cannot be derived fails with the message of the `AttributeError`,
      without a call of the processor. */
  lemma UnmappableItemFails(env: Env, process: (Path, Path) -> Response, d: Disk, t: TaskInfo, k: Path)
    requires k in t.files && t.taskType != Img2Markdown && !IsUnder(k, t.inputPath)
    ensures var s := VisitItem(env, process, d, t, k);
      s.halt.Normal? ==>
        && s.task.files[k].status == Errored && s.task.files[k].errorMessage == Some(NoParentMessage)
        && s.disk.calls == d.calls
  {
  }

  // ---------------------------------------------------------------------------
  // Properties of the loop
  // ---------------------------------------------------------------------------

  /** The first key of a list without repeats does not recur in its tail, which has no repeats. */
  lemma DistinctTail(keys: seq<Path>)
    requires |keys| > 0 && Distinct(keys)
    ensures Distinct(keys[1..]) && keys[0] !in keys[1..]
  {
    assert forall i :: 0 <= i < |keys| - 1 ==> keys[1..][i] == keys[i + 1];
  }

  /** One turn of the item loop: skip the first key, or visit it and go on when the visit lets
      the loop go on. */
  lemma RunItemsStep(env: Env, process: (Path, Path) -> Response, resume: bool, d: Disk, t: TaskInfo, keys: seq<Path>)
    requires |keys| > 0 && forall k :: k in keys ==> k in t.files
    ensures Skipped(resume, t, keys[0]) ==> RunItems(env, process, resume, d, t, keys) == RunItems(env, process, resume, d, t, keys[1..])
    ensures !Skipped(resume, t, keys[0]) ==>
      var s := VisitItem(env, process, d, t, keys[0]);
      RunItems(env, process, resume, d, t, keys) == if s.halt.Normal? then RunItems(env, process, resume, s.disk, s.task, keys[1..]) else s
  {
  }

  /** The loop keeps the header, and leaves alone every item outside `keys` and every item it skips. */
  lemma {:induction false} RunItemsKeeps(env: Env, process: (Path, Path) -> Response, resume: bool, d: Disk, t: TaskInfo, keys: seq<Path>)
    requires forall k :: k in keys ==> k in t.files
    requires Distinct(keys)
    ensures var s := RunItems(env, process, resume, d, t, keys);
      && SameHeader(t, s.task)
      && (forall j :: j in t.files && (j !in keys || Skipped(resume, t, j)) ==> s.task.files[j] == t.files[j])
    decreases |keys|
  {
    if |keys| > 0 {
      var k := keys[0];
      DistinctTail(keys);
      if Skipped(resume, t, k) {
        RunItemsKeeps(env, process, resume, d, t, keys[1..]);
      } else {
        var s := VisitItem(env, process, d, t, k);
        VisitItemFrame(env, process, d, t, k);
        if s.halt.Normal? {
          RunItemsKeeps(env, process, resume, s.disk, s.task, keys[1..]);
        }
      }
    }
  }

  /** The loop only appends to the calls, and calls the processor only for items of `keys` it does
      not skip. */
  lemma {:induction false} RunItemsCalls(env: Env, process: (Path, Path) -> Response, resume: bool, d: Disk, t: TaskInfo, keys: seq<Path>)
    requires forall k :: k in keys ==> k in t.files
    requires Distinct(keys)
    ensures var s := RunItems(env, process, resume, d, t, keys);
      && d.calls <= s.disk.calls
      && (forall i :: |d.calls| <= i < |s.disk.calls| ==> s.disk.calls[i].input in keys && !Skipped(resume, t, s.disk.calls[i].input))
    decreases |keys|
  {
    if |keys| > 0 {
      var k := keys[0];
      DistinctTail(keys);
      if Skipped(resume, t, k) {
        RunItemsCalls(env, process, resume, d, t, keys[1..]);
      } else {
        var s := VisitItem(env, process, d, t, k);
        VisitItemFrame(env, process, d, t, k);
        if s.halt.Normal? {
          RunItemsCalls(env, process, resume, s.disk, s.task, keys[1..]);
          var s2 := RunItems(env, process, resume, s.disk, s.task, keys[1..]);
          forall i | |d.calls| <= i < |s2.disk.calls|
            ensures s2.disk.calls[i].input in keys && !Skipped(resume, t, s2.disk.calls[i].input)
          {
            var c := s2.disk.calls[i];
            if i < |s.disk.calls| {
              assert c == s.disk.calls[i];
            } else {
              assert c.input in keys[1..] && !Skipped(resume, s.task, c.input);
            }
          }
        }
      }
    }
  }

  /** How many items of `keys` the loop visits rather than skips. */
  function VisitCount(resume: bool, t: TaskInfo, keys: seq<Path>): (n: nat)
    requires forall k :: k in keys ==> k in t.files
    ensures n <= |keys|
  {
    if |keys| == 0 then 0
    else (if Skipped(resume, t, keys[0]) then 0 else 1) + VisitCount(resume, t, keys[1..])
  }

  /** A loop that runs to its end adds one to exactly one counter per visited item: the counters
      are never reset, so each run adds to what earlier runs counted. */
  lemma {:induction false} RunItemsCounts(env: Env, process: (Path, Path) -> Response, resume: bool, d: Disk, t: TaskInfo, keys: seq<Path>)
    requires forall k :: k in keys ==> k in t.files
    requires Distinct(keys)
    ensures var s := RunItems(env, process, resume, d, t, keys);
      s.halt.Normal? ==>
        s.task.processedFiles + s.task.failedFiles == t.processedFiles + t.failedFiles + VisitCount(resume, t, keys)
    decreases |keys|
  {
    if |keys| > 0 {
      var k := keys[0];
      DistinctTail(keys);
      if Skipped(resume, t, k) {
        RunItemsCounts(env, process, resume, d, t, keys[1..]);
      } else {
        var s := VisitItem(env, process, d, t, k);
        VisitItemFrame(env, process, d, t, k);
        VisitItemOutcome(env, process, d, t, k);
        if s.halt.Normal? {
          RunItemsCounts(env, process, resume, s.disk, s.task, keys[1..]);
          VisitCountFrame(resume, t, s.task, keys[1..]);
        }
      }
    }
  }

  /** The visit count depends only on the records of the items counted. */
  lemma {:induction false} VisitCountFrame(resume: bool, a: TaskInfo, b: TaskInfo, keys: seq<Path>)
    requires forall k :: k in keys ==> k in a.files && k in b.files && a.files[k] == b.files[k]
    ensures VisitCount(resume, a, keys) == VisitCount(resume, b, keys)
    decreases |keys|
  {
    if |keys| > 0 {
      VisitCountFrame(resume, a, b, keys[1..]);
    }
  }

  /** How many items of `keys` have status `s` in `t`. */
  function CountStatus(t: TaskInfo, keys: seq<Path>, s: FileStatus): (n: nat)
    ensures n <= |keys|
  {
    if |keys| == 0 then 0
    else (if keys[0] in t.files && t.files[keys[0]].status == s then 1 else 0) + CountStatus(t, keys[1..], s)
  }

  lemma {:induction false} CountStatusFrame(a: TaskInfo, b: TaskInfo, keys: seq<Path>, s: FileStatus)
    requires forall k :: k in keys ==> k in a.files && k in b.files && a.files[k] == b.files[k]
    ensures CountStatus(a, keys, s) == CountStatus(b, keys, s)
    decreases |keys|
  {
    if |keys| > 0 {
      CountStatusFrame(a, b, keys[1..], s);
    }
  }

  /** A loop over items none of which is completed yet, run to its end, leaves every item completed
      or failed. */
  lemma {:induction false} RunItemsSettles(env: Env, process: (Path, Path) -> Response, resume: bool, d: Disk, t: TaskInfo, keys: seq<Path>)
    requires forall k :: k in keys ==> k in t.files
    requires Distinct(keys)
    ensures var s := RunItems(env, process, resume, d, t, keys);
      s.halt.Normal? ==> forall k :: k in keys ==> s.task.files[k].status in {Done, Errored}
    decreases |keys|
  {
    if |keys| > 0 {
      var k := keys[0];
      DistinctTail(keys);
      if Skipped(resume, t, k) {
        RunItemsSettles(env, process, resume, d, t, keys[1..]);
        RunItemsKeeps(env, process, resume, d, t, keys[1..]);
        assert forall j :: j in keys ==> j == k || j in keys[1..];
        return;
      }
      var s := VisitItem(env, process, d, t, k);
      VisitItemFrame(env, process, d, t, k);
      VisitItemOutcome(env, process, d, t, k);
      if s.halt.Normal? {
        RunItemsSettles(env, process, resume, s.disk, s.task, keys[1..]);
        RunItemsKeeps(env, process, resume, s.disk, s.task, keys[1..]);
        var s2 := RunItems(env, process, resume, s.disk, s.task, keys[1..]);
        assert RunItems(env, process, resume, d, t, keys) == s2;
        assert s2.task.files[k] == s.task.files[k];
        assert forall j :: j in keys ==> j == k || j in keys[1..];
      }
    }
  }

  /** Item `k` was passed to the processor at or after position `from` of `calls`. */
  predicate CalledSince(calls: seq<Call>, from: nat, k: Path) {
    exists i :: from <= i < |calls| && calls[i].input == k
  }

  /** A call made from some position on is still there in a longer record, from an earlier position. */
  lemma CalledSinceWiden(c: seq<Call>, c2: seq<Call>, from: nat, from2: nat, k: Path)
    requires c <= c2 && from2 <= from && CalledSince(c, from, k)
    ensures CalledSince(c2, from2, k)
  {
    var i :| from <= i < |c| && c[i].input == k;
    assert c2[i] == c[i];
  }

  /** A loop that runs to its end has passed every item it did not skip, and whose output path
      could be derived, to the processor. */
  lemma {:induction false} RunItemsCallsEach(env: Env, process: (Path, Path) -> Response, resume: bool, d: Disk, t: TaskInfo, keys: seq<Path>)
    requires forall k :: k in keys ==> k in t.files
    requires Distinct(keys)
    ensures var s := RunItems(env, process, resume, d, t, keys);
      s.halt.Normal? ==>
        forall k :: k in keys && !Skipped(resume, t, k) && Mappable(t, k) ==> CalledSince(s.disk.calls, |d.calls|, k)
    decreases |keys|
  {
    if |keys| > 0 {
      var k := keys[0];
      DistinctTail(keys);
      if Skipped(resume, t, k) {
        RunItemsCallsEach(env, process, resume, d, t, keys[1..]);
        assert forall j :: j in keys && j != k ==> j in keys[1..];
        return;
      }
      var s := VisitItem(env, process, d, t, k);
      VisitItemFrame(env, process, d, t, k);
      VisitItemCalls(env, process, d, t, k);
      if s.halt.Normal? {
        RunItemsCallsEach(env, process, resume, s.disk, s.task, keys[1..]);
        RunItemsCalls(env, process, resume, s.disk, s.task, keys[1..]);
        var s2 := RunItems(env, process, resume, s.disk, s.task, keys[1..]);
        assert RunItems(env, process, resume, d, t, keys) == s2;
        if s2.halt.Normal? {
          CallsEachStep(resume, t, s.task, keys, d.calls, s.disk.calls, s2.disk.calls);
        }
      }
    }
  }

  /** The step of `RunItemsCallsEach` past a visited first item `keys[0]`: its call was made in
      `c0..c1`, and every later item's in `c1..c2`. */
  lemma CallsEachStep(resume: bool, t: TaskInfo, t1: TaskInfo, keys: seq<Path>, c0: seq<Call>, c1: seq<Call>, c2: seq<Call>)
    requires |keys| > 0 && Distinct(keys) && forall k :: k in keys ==> k in t.files
    requires SameHeader(t, t1) && t1.files.Keys == t.files.Keys
    requires forall j :: j in t.files && j != keys[0] ==> t1.files[j] == t.files[j]
    requires c0 <= c1 <= c2
    requires Mappable(t, keys[0]) ==> |c1| == |c0| + 1 && c1[|c0|].input == keys[0]
    requires forall j :: j in keys[1..] && !Skipped(resume, t1, j) && Mappable(t1, j) ==> CalledSince(c2, |c1|, j)
    ensures forall j :: j in keys && !Skipped(resume, t, j) && Mappable(t, j) ==> CalledSince(c2, |c0|, j)
  {
    var k := keys[0];
    DistinctTail(keys);
    forall j | j in keys && !Skipped(resume, t, j) && Mappable(t, j)
      ensures CalledSince(c2, |c0|, j)
    {
      if j == k {
        CalledSinceWiden(c1, c2, |c0|, |c0|, k);
      } else {
        assert j in keys[1..];
        assert Mappable(t1, j);
        CalledSinceWiden(c2, c2, |c1|, |c0|, j);
      }
    }
  }

  /** Such a loop adds to each counter the number of items that ended in its status. */
  lemma {:induction false} RunItemsTally(env: Env, process: (Path, Path) -> Response, resume: bool, d: Disk, t: TaskInfo, keys: seq<Path>)
    requires forall k :: k in keys ==> k in t.files && t.files[k].status != Done
    requires Distinct(keys)
    ensures var s := RunItems(env, process, resume, d, t, keys);
      s.halt.Normal? ==>
        && s.task.processedFiles == t.processedFiles + CountStatus(s.task, keys, Done)
        && s.task.failedFiles == t.failedFiles + CountStatus(s.task, keys, Errored)
    decreases |keys|
  {
    if |keys| > 0 {
      var k := keys[0];
      DistinctTail(keys);
      assert !Skipped(resume, t, k);
      var s := VisitItem(env, process, d, t, k);
      VisitItemFrame(env, process, d, t, k);
      VisitItemOutcome(env, process, d, t, k);
      if s.halt.Normal? {
        RunItemsTally(env, process, resume, s.disk, s.task, keys[1..]);
        RunItemsKeeps(env, process, resume, s.disk, s.task, keys[1..]);
        var s2 := RunItems(env, process, resume, s.disk, s.task, keys[1..]);
        assert RunItems(env, process, resume, d, t, keys) == s2;
        assert s2.task.files[k] == s.task.files[k];
        assert CountStatus(s2.task, keys, Done)
          == (if s.task.files[k].status == Done then 1 else 0) + CountStatus(s2.task, keys[1..], Done);
        assert CountStatus(s2.task, keys, Errored)
          == (if s.task.files[k].status == Errored then 1 else 0) + CountStatus(s2.task, keys[1..], Errored);
      }
    }
  }

  /** Every completed item stays as it is when resuming. */
  lemma {:induction false} ResumeAllCompleted(env: Env, process: (Path, Path) -> Response, d: Disk, t: TaskInfo, keys: seq<Path>)
    requires forall k :: k in keys ==> k in t.files && t.files[k].status == Done
    ensures RunItems(env, process, true, d, t, keys) == Step(d, t, Normal)
    decreases |keys|
  {
    if |keys| > 0 {
      ResumeAllCompleted(env, process, d, t, keys[1..]);
    }
  }

  // ---------------------------------------------------------------------------
  // Properties of a whole run
  // ---------------------------------------------------------------------------

  /** An unknown id changes nothing and returns false; an unreadable task file makes `start_task`
      raise before anything changes; otherwise the task found is run. */
  lemma StartCases(env: Env, process: (Path, Path) -> Response, resume: bool, d: Disk, current: Option<TaskInfo>, id: string)
    ensures var r := StartSpec(env, process, resume, d, current, id);
      match Load(env.prefix, d.store, id)
      case NotFound => r == Run(d, None, Returned(false))
      case Unreadable => r == Run(d, current, Raised)
      case Found(t) => WellFormed(t) && r == StartFrom(env, process, resume, d, t)
  {
  }

  /** What the handlers after the loop do: they keep the task's identity, items and counters, and
      set its status by how the loop stopped; whenever `start_task` returns, the task it ends with is
      in its file. */
  lemma ConcludeEnds(env: Env, d: Disk, t: TaskInfo, halt: Halt)
    ensures var r := Conclude(env, d, t, halt);
      && r.current.Some?
      && var u := r.current.value;
      && u.taskId == t.taskId && u.startTime == t.startTime && u.order == t.order && u.files == t.files
      && u.processedFiles == t.processedFiles && u.failedFiles == t.failedFiles
      && r.disk.calls == d.calls
      && (r.outcome == Returned(true) <==> halt.Normal? && u.status == Completed)
      && (r.outcome == Returned(true) ==> u.endTime.Some?)
      && (halt.Interrupted? ==> u.status == Paused && r.outcome != Returned(true))
      && (halt.Fault? ==> u.status == Failed && u.errorMessage == Some(halt.message) && r.outcome != Returned(true))
      && (r.outcome.Returned? ==> Checkpointed(env, r.disk, u))
  {
  }

  /** The three ways a run ends, and the task id and the start time it keeps; whenever `start_task`
      returns, `load_task` gives back the task it ends with. */
  lemma StartEnds(env: Env, process: (Path, Path) -> Response, resume: bool, d: Disk, t: TaskInfo)
    requires WellFormed(t)
    ensures var s := LoopOf(env, process, resume, d, t);
      var r := StartFrom(env, process, resume, d, t);
      && r.current.Some?
      && r.current.value.taskId == t.taskId
      && (t.startTime.Some? ==> r.current.value.startTime == t.startTime)
      && r.current.value.startTime.Some?
      && r.current.value.order == t.order
      && r.current.value.files == s.task.files
      && r.current.value.processedFiles == s.task.processedFiles
      && r.current.value.failedFiles == s.task.failedFiles
      && r.disk.calls == s.disk.calls
      && (r.outcome == Returned(true) <==> s.halt.Normal? && r.current.value.status == Completed)
      && (r.outcome == Returned(true) ==> r.current.value.endTime.Some?)
      && (s.halt.Interrupted? ==> r.current.value.status == Paused && r.outcome != Returned(true))
      && (s.halt.Fault? ==> r.current.value.status == Failed && r.current.value.errorMessage == Some(s.halt.message)
                            && r.outcome != Returned(true))
      && (r.outcome.Returned? ==> Load(env.prefix, r.disk.store, t.taskId) == Found(r.current.value))
  {
    var t1 := Begin(env, d, t);
    var s := LoopOf(env, process, resume, d, t);
    RunItemsKeeps(env, process, resume, BeginDisk(d, t), t1, t1.order);
    assert SameHeader(t1, s.task);
    ConcludeEnds(env, s.disk, s.task, s.halt);
    var r := StartFrom(env, process, resume, d, t);
    if r.outcome.Returned? {
      CheckpointLoads(env, r.disk, r.current.value);
    }
  }

  /** A run of a fresh task (every item untouched, nothing counted) that completes has counted every
      item once: completed plus failed is the number of items, each matching the items in that status. */
  lemma FreshRunTally(env: Env, process: (Path, Path) -> Response, resume: bool, d: Disk, t: TaskInfo)
    requires WellFormed(t)
    requires forall k :: k in t.files ==> Untouched(t.files[k])
    requires t.processedFiles == 0 && t.failedFiles == 0
    ensures var r := StartFrom(env, process, resume, d, t);
      r.outcome == Returned(true) ==>
        var u := r.current.value;
        && u.status == Completed
        && u.processedFiles + u.failedFiles == |u.order|
        && u.processedFiles == CountStatus(u, u.order, Done)
        && u.failedFiles == CountStatus(u, u.order, Errored)
  {
    var t1 := Begin(env, d, t);
    var s := LoopOf(env, process, resume, d, t);
    RunItemsTally(env, process, resume, BeginDisk(d, t), t1, t1.order);
    RunItemsSettles(env, process, resume, BeginDisk(d, t), t1, t1.order);
    RunItemsKeeps(env, process, resume, BeginDisk(d, t), t1, t1.order);
    StartEnds(env, process, resume, d, t);
    var r := StartFrom(env, process, resume, d, t);
    if r.outcome == Returned(true) {
      var u := r.current.value;
      assert u.order == t.order;
      CountStatusFrame(u, s.task, t.order, Done);
      CountStatusFrame(u, s.task, t.order, Errored);
      StatusesSum(s.task, t.order);
    }
  }

  /** When every item is completed or failed, the two counts add up to the number of items. */
  lemma {:induction false} StatusesSum(t: TaskInfo, keys: seq<Path>)
    requires forall k :: k in keys ==> k in t.files && t.files[k].status in {Done, Errored}
    ensures CountStatus(t, keys, Done) + CountStatus(t, keys, Errored) == |keys|
    decreases |keys|
  {
    if |keys| > 0 {
      StatusesSum(t, keys[1..]);
    }
  }

  /** Resuming a task whose items are all completed calls the processor for none of them and leaves
      the items and both counters as they were. */
  lemma ResumeCompletedTaskIsIdle(env: Env, process: (Path, Path) -> Response, d: Disk, t: TaskInfo)
    requires WellFormed(t)
    requires forall k :: k in t.files ==> t.files[k].status == Done
    ensures var r := StartFrom(env, process, true, d, t);
      && r.disk.calls == d.calls
      && r.current.value.processedFiles == t.processedFiles
      && r.current.value.failedFiles == t.failedFiles
      && r.current.value.files == t.files
  {
    var t1 := Begin(env, d, t);
    ResumeAllCompleted(env, process, BeginDisk(d, t), t1, t1.order);
  }

  /** Without resuming, a task whose counters already add up to its items is run again in full, and
      when that run completes its counters add up to twice its items. */
  lemma RerunDoublesCounters(env: Env, process: (Path, Path) -> Response, d: Disk, t: TaskInfo)
    requires WellFormed(t)
    requires t.processedFiles + t.failedFiles == |t.order|
    ensures var r := StartFrom(env, process, false, d, t);
      r.outcome == Returned(true) ==>
        r.current.value.processedFiles + r.current.value.failedFiles == 2 * |r.current.value.order|
  {
    var t1 := Begin(env, d, t);
    RunItemsCounts(env, process, false, BeginDisk(d, t), t1, t1.order);
    RunItemsKeeps(env, process, false, BeginDisk(d, t), t1, t1.order);
    NoSkipCountsAll(t1, t1.order);
    StartEnds(env, process, false, d, t);
  }

  /** Without resuming, a run that completes has processed every item again, completed ones
      included: each ends completed or failed, and each whose output path can be derived was
      passed to the processor during the run. */
  lemma RerunCallsEveryItem(env: Env, process: (Path, Path) -> Response, d: Disk, t: TaskInfo)
    requires WellFormed(t)
    ensures var r := StartFrom(env, process, false, d, t);
      r.outcome == Returned(true) ==>
        && (forall k :: k in t.files ==> r.current.value.files[k].status in {Done, Errored})
        && (forall k :: k in t.files && Mappable(t, k) ==> CalledSince(r.disk.calls, |d.calls|, k))
  {
    var t1 := Begin(env, d, t);
    var d1 := BeginDisk(d, t);
    RunItemsSettles(env, process, false, d1, t1, t1.order);
    RunItemsCallsEach(env, process, false, d1, t1, t1.order);
    StartEnds(env, process, false, d, t);
    assert d1.calls == d.calls;
    assert forall k :: k in t.files ==> (Mappable(t1, k) <==> Mappable(t, k));
  }

  /** Without resuming, every item is visited. */
  lemma {:induction false} NoSkipCountsAll(t: TaskInfo, keys: seq<Path>)
    requires forall k :: k in keys ==> k in t.files
    ensures VisitCount(false, t, keys) == |keys|
    decreases |keys|
  {
    if |keys| > 0 {
      NoSkipCountsAll(t, keys[1..]);
    }
  }

  /** While resuming, every completed item keeps its record and is never passed to the processor. */
  lemma ResumeSkipsCompleted(env: Env, process: (Path, Path) -> Response, d: Disk, t: TaskInfo, k: Path)
    requires WellFormed(t)
    requires k in t.files && t.files[k].status == Done
    ensures var r := StartFrom(env, process, true, d, t);
      && r.current.value.files[k] == t.files[k]
      && (forall i :: |d.calls| <= i < |r.disk.calls| ==> r.disk.calls[i].input != k)
  {
    var t1 := Begin(env, d, t);
    RunItemsKeeps(env, process, true, BeginDisk(d, t), t1, t1.order);
    RunItemsCalls(env, process, true, BeginDisk(d, t), t1, t1.order);
    var s := LoopOf(env, process, true, d, t);
    StartEnds(env, process, true, d, t);
    var r := StartFrom(env, process, true, d, t);
    assert BeginDisk(d, t).calls == d.calls;
    assert r.disk.calls == s.disk.calls;
  }

  /** Processing an item does not read the tasks directory. */
  lemma AttemptIgnoresStore(process: (Path, Path) -> Response, d: Disk, t: TaskInfo, k: Path, other: map<string, TaskFile>)
    requires k in t.files
    ensures var a1 := Attempt(process, d, t, k);
      var a2 := Attempt(process, d.(store := other), t, k);
      a2 == (a1.0.(store := other), a1.1, a1.2)
  {
    var out := GenerateOutputPath(k, t.inputPath, t.outputPath, t.taskType);
    var e := d.(store := other);
    if out.Success? {
      var called := d.(calls := d.calls + [Call(k, out.value)]);
      assert e.(calls := e.calls + [Call(k, out.value)]) == called.(store := other);
      match process(k, out.value)
      case Answer(m) =>
        var u := if m.Some? && m.value != "" then ItemFailed(t, k, m.value) else ItemDone(t, k, out.value);
        assert Attempt(process, d, t, k) == (called, u, false);
        assert Attempt(process, e, t, k) == (called.(store := other), u, false);
      case Raises(m) =>
        assert Attempt(process, e, t, k) == (called.(store := other), ItemFailed(t, k, m), false);
      case Interrupt =>
    }
  }

  /** A visit does not read the tasks directory: started over another directory, it ends with the
      same task, the same halt and the same counters and calls. */
  lemma VisitIgnoresStore(env: Env, process: (Path, Path) -> Response, d: Disk, t: TaskInfo, k: Path,
                          other: map<string, TaskFile>)
    requires k in t.files
    ensures var s1 := VisitItem(env, process, d, t, k);
      var s2 := VisitItem(env, process, d.(store := other), t, k);
      s1.task == s2.task && s1.halt == s2.halt && s2.disk == s1.disk.(store := s2.disk.store)
  {
    var t1 := t.(files := t.files[k := t.files[k].(status := Processing, startTime := Some(NextReading(env, d)))]);
    var e := d.(store := other);
    assert NextReading(env, e) == NextReading(env, d);
    var d2 := Store(env, Tick(d), t1);
    var e2 := Store(env, Tick(e), t1);
    assert e2 == d2.(store := e2.store);
    if env.writeFault(Tick(d).writes).None? {
      AttemptIgnoresStore(process, d2, t1, k, e2.store);
      assert e2 == d2.(store := e2.store);
    }
  }

  /** Nor does the loop: a task file rewritten while it runs, by `cancel_task` say, changes
      nothing about which items it visits and how they and the loop end. */
  lemma {:induction false} RunItemsIgnoresStore(env: Env, process: (Path, Path) -> Response, resume: bool, d: Disk,
                                                t: TaskInfo, keys: seq<Path>, other: map<string, TaskFile>)
    requires forall k :: k in keys ==> k in t.files
    ensures var s1 := RunItems(env, process, resume, d, t, keys);
      var s2 := RunItems(env, process, resume, d.(store := other), t, keys);
      s1.task == s2.task && s1.halt == s2.halt && s2.disk == s1.disk.(store := s2.disk.store)
    decreases |keys|
  {
    if |keys| > 0 {
      if Skipped(resume, t, keys[0]) {
        RunItemsIgnoresStore(env, process, resume, d, t, keys[1..], other);
      } else {
        VisitIgnoresStore(env, process, d, t, keys[0], other);
        var s1 := VisitItem(env, process, d, t, keys[0]);
        var s2 := VisitItem(env, process, d.(store := other), t, keys[0]);
        if s1.halt.Normal? {
          RunItemsIgnoresStore(env, process, resume, s1.disk, s1.task, keys[1..], s2.disk.store);
        }
      }
    }
  }

  /** Nor do the handlers after the loop. */
  lemma ConcludeIgnoresStore(env: Env, d: Disk, t: TaskInfo, halt: Halt, other: map<string, TaskFile>)
    ensures var r1 := Conclude(env, d, t, halt);
      var r2 := Conclude(env, d.(store := other), t, halt);
      r1.current == r2.current && r1.outcome == r2.outcome && r1.disk.calls == r2.disk.calls
  {
  }

  /** Once the task is loaded, a run ends the same way over any directory: cancelling the task
      while it runs does not stop it, and the run still ends completed, paused or failed. */
  lemma CancelDoesNotStopRun(env: Env, process: (Path, Path) -> Response, resume: bool, d: Disk, t: TaskInfo,
                             other: map<string, TaskFile>)
    requires WellFormed(t)
    ensures var r1 := StartFrom(env, process, resume, d, t);
      var r2 := StartFrom(env, process, resume, d.(store := other), t);
      && r1.current == r2.current && r1.outcome == r2.outcome
      && r1.disk.calls == r2.disk.calls
      && r2.current.value.status in {Completed, Paused, Failed}
  {
    var t1 := Begin(env, d, t);
    assert Begin(env, d.(store := other), t) == t1;
    assert BeginDisk(d.(store := other), t) == BeginDisk(d, t).(store := other);
    RunItemsIgnoresStore(env, process, resume, BeginDisk(d, t), t1, t1.order, other);
    var s1 := RunItems(env, process, resume, BeginDisk(d, t), t1, t1.order);
    var s2 := RunItems(env, process, resume, BeginDisk(d.(store := other), t), t1, t1.order);
    ConcludeIgnoresStore(env, s1.disk, s1.task, s1.halt, s2.disk.store);
    ConcludeEnds(env, s2.disk, s2.task, s2.halt);
  }
}
