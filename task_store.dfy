/** The task store: how a task record is turned into the JSON record `_save_task` writes and back
    into a record by `load_task`, and how a task's file is named and its id recovered from the name. */
module TaskStore {
  import opened Wrappers
  import opened Text
  import opened Seqs
  import opened Paths
  import opened Timestamps
  import opened Types

  /** An item as it stands in the JSON file: enums as their tokens, timestamps as ISO strings. */
  datatype StoredFile = StoredFile(
    filePath: Path,
    status: string,
    startTime: Option<string>,
    endTime: Option<string>,
    errorMessage: Option<string>,
    outputPath: Option<Path>,
    metadata: map<string, string>)

  /** A task as it stands in the JSON file. `order` and `files` are the JSON object of items: its keys
      in the order they are written, and the value under each key. */
  datatype StoredTask = StoredTask(
    taskId: string,
    taskType: string,
    status: string,
    createdTime: string,
    startTime: Option<string>,
    endTime: Option<string>,
    inputPath: Path,
    outputPath: Path,
    totalFiles: int,
    processedFiles: int,
    failedFiles: int,
    order: seq<Path>,
    files: map<Path, StoredFile>,
    config: map<string, string>,
    errorMessage: Option<string>)

  /** What a task file holds: the record `_save_task(task)` wrote in full (its JSON is
      `EncodeTask(task)`), a complete JSON record written some other way (by hand, by another
      version), or the remains of a write that failed after `open(..., 'w')` had truncated the file,
      which `json.load` cannot read. */
  datatype TaskFile = Written(task: TaskInfo) | Record(content: StoredTask) | Torn

  /** The JSON record a file holds, if `json.load` can read one. */
  function Content(f: TaskFile): (r: Option<StoredTask>)
    ensures r.None? <==> f.Torn?
    ensures f.Record? ==> r == Some(f.content)
  {
    match f
    case Written(t) => Some(EncodeTask(t))
    case Record(s) => Some(s)
    case Torn => None
  }

  // ---------------------------------------------------------------------------
  // Timestamps
  // ---------------------------------------------------------------------------

  /** Saving: a set timestamp becomes its `isoformat()`, an unset one stays null. */
  function EncodeTime(t: Option<DateTime>): Option<string> {
    match t
    case None => None
    case Some(d) => Some(IsoFormat(d))
  }

  /** Loading: null stays unset; a string goes through `fromisoformat()`. The outer None is a record
      the loader rejects (an empty or malformed timestamp). */
  function DecodeTime(s: Option<string>): Option<Option<DateTime>> {
    match s
    case None => Some(None)
    case Some(text) =>
      var d := FromIsoFormat(text);
      if d.Some? then Some(Some(d.value)) else None
  }

  /** A timestamp survives a save and a load, set or unset. */
  lemma DecodeEncodeTime(t: Option<DateTime>)
    ensures DecodeTime(EncodeTime(t)) == Some(t)
  {
    if t.Some? {
      IsoRoundTrip(t.value);
    }
  }

  // ---------------------------------------------------------------------------
  // Records
  // ---------------------------------------------------------------------------

  function EncodeFile(r: FileRecord): StoredFile {
    StoredFile(r.filePath, FileStatusToken(r.status), EncodeTime(r.startTime), EncodeTime(r.endTime),
               r.errorMessage, r.outputPath, r.metadata)
  }

  /** `FileRecord(**record_data)` after the timestamp conversion, or None where validation fails. */
  function DecodeFile(s: StoredFile): Option<FileRecord> {
    var status := ParseFileStatus(s.status);
    var start := DecodeTime(s.startTime);
    var end := DecodeTime(s.endTime);
    if status.None? || start.None? || end.None? then None
    else Some(FileRecord(s.filePath, status.value, start.value, end.value, s.errorMessage, s.outputPath, s.metadata))
  }

  lemma DecodeEncodeFile(r: FileRecord)
    ensures DecodeFile(EncodeFile(r)) == Some(r)
  {
    DecodeEncodeTime(r.startTime);
    DecodeEncodeTime(r.endTime);
  }

  /** `_save_task`'s conversion of a task into the JSON record it writes. */
  function EncodeTask(t: TaskInfo): StoredTask {
    StoredTask(t.taskId, TaskTypeToken(t.taskType), TaskStatusToken(t.status), IsoFormat(t.createdTime),
               EncodeTime(t.startTime), EncodeTime(t.endTime), t.inputPath, t.outputPath,
               t.totalFiles, t.processedFiles, t.failedFiles,
               t.order, map k | k in t.files :: EncodeFile(t.files[k]), t.config, t.errorMessage)
  }

  /** `load_task`'s conversion of a JSON record into a task, or None where `TaskInfo(**data)` raises.
      The first test is what it is to be a JSON object: each key once, and every key listed. */
  function DecodeTask(s: StoredTask): (r: Option<TaskInfo>)
    ensures r.Some? ==> WellFormed(r.value)
  {
    var kind := ParseTaskType(s.taskType);
    var status := ParseTaskStatus(s.status);
    var created := FromIsoFormat(s.createdTime);
    var start := DecodeTime(s.startTime);
    var end := DecodeTime(s.endTime);
    if !(Distinct(s.order) && (forall k :: k in s.files ==> k in s.order) && (forall k :: k in s.order ==> k in s.files))
    then None
    else if kind.None? || status.None? || created.None? || start.None? || end.None? then None
    else if !(forall k :: k in s.files ==> DecodeFile(s.files[k]).Some?) then None
    else
      var files := map k | k in s.files :: DecodeFile(s.files[k]).value;
      Some(TaskInfo(s.taskId, kind.value, status.value, created.value, start.value, end.value,
                    s.inputPath, s.outputPath, s.totalFiles, s.processedFiles, s.failedFiles,
                    s.order, files, s.config, s.errorMessage))
  }

  /** Items that each decode to their counterpart decode, as a dict, to the dict of counterparts. */
  lemma DecodedFiles(stored: map<Path, StoredFile>, files: map<Path, FileRecord>)
    requires stored.Keys == files.Keys
    requires forall k :: k in stored ==> DecodeFile(stored[k]) == Some(files[k])
    ensures (map k | k in stored :: DecodeFile(stored[k]).value) == files
  {
  }

  /** The record `_save_task` writes for a task is loaded as that task once its parts convert back. */
  lemma DecodeTaskParts(s: StoredTask, t: TaskInfo)
    requires WellFormed(t) && s == EncodeTask(t)
    requires ParseTaskType(s.taskType) == Some(t.taskType) && ParseTaskStatus(s.status) == Some(t.status)
    requires FromIsoFormat(s.createdTime) == Some(t.createdTime)
    requires DecodeTime(s.startTime) == Some(t.startTime) && DecodeTime(s.endTime) == Some(t.endTime)
    requires forall k :: k in s.files ==> DecodeFile(s.files[k]) == Some(t.files[k])
    ensures DecodeTask(s) == Some(t)
  {
    assert s.order == t.order && s.files.Keys == t.files.Keys;
    assert Distinct(s.order) && (forall k :: k in s.files ==> k in s.order) && (forall k :: k in s.order ==> k in s.files);
    assert forall k :: k in s.files ==> DecodeFile(s.files[k]).Some?;
    var files := map k | k in s.files :: DecodeFile(s.files[k]).value;
    DecodedFiles(s.files, t.files);
    assert t == TaskInfo(s.taskId, t.taskType, t.status, t.createdTime, t.startTime, t.endTime,
                         s.inputPath, s.outputPath, s.totalFiles, s.processedFiles, s.failedFiles,
                         s.order, files, s.config, s.errorMessage);
  }

  /** Saving a task and loading it back gives the same task, field for field, with unset optional
      fields still unset. */
  lemma DecodeEncodeTask(t: TaskInfo)
    requires WellFormed(t)
    ensures DecodeTask(EncodeTask(t)) == Some(t)
  {
    var s := EncodeTask(t);
    IsoRoundTrip(t.createdTime);
    DecodeEncodeTime(t.startTime);
    DecodeEncodeTime(t.endTime);
    forall k | k in s.files
      ensures DecodeFile(s.files[k]) == Some(t.files[k])
    {
      DecodeEncodeFile(t.files[k]);
    }
    DecodeTaskParts(s, t);
  }

  // ---------------------------------------------------------------------------
  // File names
  // ---------------------------------------------------------------------------

  /** The file a task is stored in: `{prefix}{task_id}.json` in the tasks directory. */
  function TaskFileName(prefix: string, id: string): string {
    prefix + id + ".json"
  }

  /** The names `tasks_dir.glob(f"{prefix}*.json")` lists, for a prefix without glob wildcards. */
  predicate MatchesTaskGlob(prefix: string, name: string) {
    |name| >= |prefix| + 5 && StartsWith(name, prefix) && EndsWith(name, ".json")
  }

  /** `task_file.stem.replace(prefix, '')`: the id `list_tasks` reads off a file name. */
  function RecoverTaskId(prefix: string, name: string): string {
    RemoveAll(StemOf(name), prefix)
  }

  /** The stem of a task file's name is the prefix followed by the id. */
  lemma TaskFileStem(prefix: string, id: string)
    requires |prefix + id| > 0
    ensures StemOf(TaskFileName(prefix, id)) == prefix + id
  {
    var name := TaskFileName(prefix, id);
    assert name == (prefix + id) + ".json";
    assert name[|prefix + id|] == '.';
    assert forall j :: |prefix + id| < j < |name| ==> name[j] != '.';
    var i := LastIndexOf(name, '.');
    assert i == |prefix + id|;
    assert name[..i] == prefix + id;
  }

  /** Every task file is listed by the glob, and the id read off its name is the task's id, as long
      as the id does not itself contain the prefix. */
  lemma TaskFileNameRecoversId(prefix: string, id: string)
    requires |prefix| > 0 && !Contains(id, prefix)
    ensures MatchesTaskGlob(prefix, TaskFileName(prefix, id))
    ensures RecoverTaskId(prefix, TaskFileName(prefix, id)) == id
  {
    var name := TaskFileName(prefix, id);
    assert name[..|prefix|] == prefix;
    assert name[|name| - 5..] == ".json";
    TaskFileStem(prefix, id);
    RemovePrefixRecovers(prefix, id);
  }

  /** An id that contains the prefix is not recovered: every occurrence of the prefix is removed
      from the stem, so `list_tasks` looks the task up under another id. */
  lemma InnerPrefixIsRemovedToo()
    ensures RecoverTaskId("t_", TaskFileName("t_", "at_b")) == "ab"
  {
    TaskFileStem("t_", "at_b");
    assert StemOf(TaskFileName("t_", "at_b")) == "t_at_b";
    assert StartsWith("t_at_b", "t_") && "t_at_b"[2..] == "at_b";
    assert !StartsWith("at_b", "t_") && "at_b"[1..] == "t_b";
    assert StartsWith("t_b", "t_") && "t_b"[2..] == "b";
    assert !StartsWith("b", "t_") && "b"[1..] == "";
    assert RemoveAll("", "t_") == "";
    assert RemoveAll("b", "t_") == "b";
    assert RemoveAll("t_b", "t_") == "b";
    assert RemoveAll("at_b", "t_") == "ab";
  }

  // ---------------------------------------------------------------------------
  // Loading
  // ---------------------------------------------------------------------------

  /** What looking a task up produces: no file, a file that cannot be read into a task (where
      `load_task` raises), or the task. */
  datatype Lookup<T> = NotFound | Unreadable | Found(value: T)

  /** `load_task(task_id)` against the tasks directory `store` (file name to content). */
  function Load(prefix: string, store: map<string, TaskFile>, id: string): (r: Lookup<TaskInfo>)
    ensures r.NotFound? <==> TaskFileName(prefix, id) !in store
    ensures r.Found? ==> WellFormed(r.value)
  {
    var name := TaskFileName(prefix, id);
    if name !in store then NotFound
    else
      var s := Content(store[name]);
      if s.None? then Unreadable
      else
        var t := DecodeTask(s.value);
        if t.Some? then Found(t.value) else Unreadable
  }

  /** The store after `_save_task(t)` wrote its file completely. */
  function Saved(prefix: string, store: map<string, TaskFile>, t: TaskInfo): map<string, TaskFile> {
    store[TaskFileName(prefix, t.taskId) := Written(t)]
  }

  /** Why `_save_task` raised: the exception's message, and whether `open(..., 'w')` had already
      emptied the file (the write failed while `json.dump` was writing) or had not (`open` itself
      failed, so the file is as it was, or still missing). */
  datatype SaveError = SaveError(message: string, truncated: bool)

  /** The store after `_save_task(t)` ended with `fault`: the file holds the task when the save
      succeeded, is torn when it failed after truncation, and is untouched when `open` failed. */
  function AfterSave(prefix: string, store: map<string, TaskFile>, t: TaskInfo, fault: Option<SaveError>): (r: map<string, TaskFile>)
    ensures forall name :: name != TaskFileName(prefix, t.taskId) ==> (name in r <==> name in store)
    ensures forall name :: name in store && name != TaskFileName(prefix, t.taskId) ==> r[name] == store[name]
  {
    if fault.None? then Saved(prefix, store, t)
    else if fault.value.truncated then store[TaskFileName(prefix, t.taskId) := Torn]
    else store
  }

  /** A save that failed in `open` changes no lookup; one that failed after truncating the file
      makes the task unreadable; any other task file is read as before. */
  lemma LoadAfterFailedSave(prefix: string, store: map<string, TaskFile>, t: TaskInfo, e: SaveError, id: string)
    ensures var after := AfterSave(prefix, store, t, Some(e));
      && (!e.truncated ==> Load(prefix, after, id) == Load(prefix, store, id))
      && (e.truncated && id == t.taskId ==> Load(prefix, after, id) == Unreadable)
      && (TaskFileName(prefix, id) != TaskFileName(prefix, t.taskId) ==> Load(prefix, after, id) == Load(prefix, store, id))
  {
  }

  /** Loading a task right after saving it gives back the task saved. */
  lemma LoadAfterSave(prefix: string, store: map<string, TaskFile>, t: TaskInfo)
    requires WellFormed(t)
    ensures Load(prefix, Saved(prefix, store, t), t.taskId) == Found(t)
  {
    assert Saved(prefix, store, t)[TaskFileName(prefix, t.taskId)] == Written(t);
    DecodeEncodeTask(t);
  }
}
