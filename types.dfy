/** The work-item model: task kinds, task and item statuses, the per-item record and the task record,
    with the defaults a new record takes. */
module Types {
  import opened Wrappers
  import opened Seqs
  import opened Paths
  import opened Timestamps

  // ---------------------------------------------------------------------------
  // Enumerations and their string tokens
  // ---------------------------------------------------------------------------

  /** Which conversion a task runs: documents to page images, page images to Markdown, or both in one step. */
  datatype TaskType = Pdf2Image | Img2Markdown | FullPipeline

  datatype TaskStatus = Created | Running | Paused | Completed | Failed | Cancelled

  /** An item's status. `Done` and `Errored` are the members stored as "completed" and "failed"; they are
      renamed only so that they can be written unqualified next to the task statuses of the same names. */
  datatype FileStatus = Pending | Processing | Done | Errored | Skipped

  /** Every task type, in declaration order. */
  const AllTaskTypes: seq<TaskType> := [Pdf2Image, Img2Markdown, FullPipeline]
  const AllTaskStatuses: seq<TaskStatus> := [Created, Running, Paused, Completed, Failed, Cancelled]
  const AllFileStatuses: seq<FileStatus> := [Pending, Processing, Done, Errored, Skipped]

  /** The enumerations have exactly 3, 6 and 5 members. */
  lemma EnumerationSizes()
    ensures |AllTaskTypes| == 3 && Distinct(AllTaskTypes) && forall t: TaskType :: t in AllTaskTypes
    ensures |AllTaskStatuses| == 6 && Distinct(AllTaskStatuses) && forall t: TaskStatus :: t in AllTaskStatuses
    ensures |AllFileStatuses| == 5 && Distinct(AllFileStatuses) && forall t: FileStatus :: t in AllFileStatuses
  {
    forall t: TaskType ensures t in AllTaskTypes {
      match t
      case Pdf2Image => assert AllTaskTypes[0] == t;
      case Img2Markdown => assert AllTaskTypes[1] == t;
      case FullPipeline => assert AllTaskTypes[2] == t;
    }
    forall t: TaskStatus ensures t in AllTaskStatuses {
      match t
      case Created => assert AllTaskStatuses[0] == t;
      case Running => assert AllTaskStatuses[1] == t;
      case Paused => assert AllTaskStatuses[2] == t;
      case Completed => assert AllTaskStatuses[3] == t;
      case Failed => assert AllTaskStatuses[4] == t;
      case Cancelled => assert AllTaskStatuses[5] == t;
    }
    forall t: FileStatus ensures t in AllFileStatuses {
      match t
      case Pending => assert AllFileStatuses[0] == t;
      case Processing => assert AllFileStatuses[1] == t;
      case Done => assert AllFileStatuses[2] == t;
      case Errored => assert AllFileStatuses[3] == t;
      case Skipped => assert AllFileStatuses[4] == t;
    }
  }

  /** The string a task type is stored as: the member's own name. */
  function TaskTypeToken(t: TaskType): string {
    match t
    case Pdf2Image => "pdf2image"
    case Img2Markdown => "img2markdown"
    case FullPipeline => "full_pipeline"
  }

  /** The task type a stored string names, or None when it names none (validation rejects it). */
  function ParseTaskType(s: string): (r: Option<TaskType>)
    ensures forall t :: r == Some(t) <==> TaskTypeToken(t) == s
  {
    if s == "pdf2image" then Some(Pdf2Image)
    else if s == "img2markdown" then Some(Img2Markdown)
    else if s == "full_pipeline" then Some(FullPipeline)
    else None
  }

  function TaskStatusToken(t: TaskStatus): string {
    match t
    case Created => "created"
    case Running => "running"
    case Paused => "paused"
    case Completed => "completed"
    case Failed => "failed"
    case Cancelled => "cancelled"
  }

  function ParseTaskStatus(s: string): (r: Option<TaskStatus>)
    ensures forall t :: r == Some(t) <==> TaskStatusToken(t) == s
  {
    if s == "created" then Some(Created)
    else if s == "running" then Some(Running)
    else if s == "paused" then Some(Paused)
    else if s == "completed" then Some(Completed)
    else if s == "failed" then Some(Failed)
    else if s == "cancelled" then Some(Cancelled)
    else None
  }

  function FileStatusToken(t: FileStatus): string {
    match t
    case Pending => "pending"
    case Processing => "processing"
    case Done => "completed"
    case Errored => "failed"
    case Skipped => "skipped"
  }

  function ParseFileStatus(s: string): (r: Option<FileStatus>)
    ensures forall t :: r == Some(t) <==> FileStatusToken(t) == s
  {
    if s == "pending" then Some(Pending)
    else if s == "processing" then Some(Processing)
    else if s == "completed" then Some(Done)
    else if s == "failed" then Some(Errored)
    else if s == "skipped" then Some(Skipped)
    else None
  }

  // ---------------------------------------------------------------------------
  // Records
  // ---------------------------------------------------------------------------

  /** One work item: a document, or a folder of page images. `metadata` and a task's `config` hold
      arbitrary JSON values; they are carried as opaque strings. */
  datatype FileRecord = FileRecord(
    filePath: Path,
    status: FileStatus,
    startTime: Option<DateTime>,
    endTime: Option<DateTime>,
    errorMessage: Option<string>,
    outputPath: Option<Path>,
    metadata: map<string, string>)

  /** The record of an item no run has touched yet. */
  predicate Untouched(r: FileRecord) {
    r.status == Pending && r.startTime.None? && r.endTime.None? && r.errorMessage.None?
    && r.outputPath.None? && r.metadata == map[]
  }

  /** `FileRecord(file_path=p)`: a record built from the defaults. */
  function NewFileRecord(p: Path): (r: FileRecord)
    ensures r.filePath == p && Untouched(r)
  {
    FileRecord(p, Pending, None, None, None, None, map[])
  }

  /** A task: its identity and kind, its roots, its counters and its items. The items are a dict:
      `files` maps each item path to its record and `order` lists the paths in insertion order. */
  datatype TaskInfo = TaskInfo(
    taskId: string,
    taskType: TaskType,
    status: TaskStatus,
    createdTime: DateTime,
    startTime: Option<DateTime>,
    endTime: Option<DateTime>,
    inputPath: Path,
    outputPath: Path,
    totalFiles: int,
    processedFiles: int,
    failedFiles: int,
    order: seq<Path>,
    files: map<Path, FileRecord>,
    config: map<string, string>,
    errorMessage: Option<string>)

  /** The dict's insertion order lists each of its keys exactly once. */
  predicate WellFormed(t: TaskInfo) {
    Distinct(t.order) && (forall k :: k in t.files ==> k in t.order) && (forall k :: k in t.order ==> k in t.files)
  }

  /** `TaskInfo(task_type=..., input_path=..., output_path=..., config=...)` with `task_id` drawn
      once from `uuid4()` and `created_time` from the clock: every other field takes its default. */
  function NewTaskInfo(id: string, kind: TaskType, created: DateTime, input: Path, output: Path,
                       config: map<string, string>): (t: TaskInfo)
    ensures t.taskId == id && t.taskType == kind && t.createdTime == created
    ensures t.inputPath == input && t.outputPath == output && t.config == config
    ensures t.status == Created && t.totalFiles == 0 && t.processedFiles == 0 && t.failedFiles == 0
    ensures t.startTime.None? && t.endTime.None? && t.errorMessage.None?
    ensures t.order == [] && t.files == map[] && WellFormed(t)
  {
    TaskInfo(id, kind, Created, created, None, None, input, output, 0, 0, 0, [], map[], config, None)
  }
}
