# convert_pdf2markdown: task manager and Markdown splitter, modelled in Dafny

convert_pdf2markdown turns PDF documents into page images and page images into Markdown. Its
batch runs are kept by a **task manager**. A task has a kind: `pdf2image`, `img2markdown` or
`full_pipeline`. It also has an input root and an output root, and a dict of **work items**, one
per document or page-image folder, each with its own status. The task is saved as a JSON file
`{prefix}{task_id}.json` in a tasks directory. `start_task` walks the items in the dict's
insertion order. For each one it marks it `processing` and saves the task. It then derives the
item's output path, hands both to a processor callback, records the answer, stamps the end time
and saves again. Depending on how the loop stops, the task ends `completed`, `paused` or
`failed`. The tasks can be created, listed, inspected and cancelled.

The second component is the **Markdown splitter** of `split_by_meaning.py`, which provides:

- cutting a document at its headers;
- cutting it into runs of paragraphs of bounded length;
- merging sections that are too short;
- naming the file each section is saved to.

The project has these modules:

| module | file | what it holds |
|---|---|---|
| `Types` | types.dfy | The enumerations, `FileRecord` and `TaskInfo` of `_types.py`. The dict of items is `files: map<Path, FileRecord>` with its insertion order `order: seq<Path>`. |
| `Timestamps` | timestamps.dfy | Naive `datetime`, `isoformat()` / `fromisoformat()`, and datetime ordering. |
| `Paths` | paths.dfy | The part of `pathlib` the manager uses: `name`, `stem`, `parent`, `relative_to` and `/`. |
| `TaskStore` | task_store.dfy | The JSON record `_save_task` writes, `load_task`, the task file name, and the id `list_tasks` reads off a file name. |
| `TaskPaths` | task_paths.dfy | `_scan_input_files` and `_generate_output_path`. |
| `Orchestration` | orchestration.dfy | `start_task` as a function of the tasks directory, the environment and the processor's answers, with the properties of a run. |
| `Tasks` | tasks.dfy | The `TaskManager` class. Its methods are proved against the `Orchestration` functions. It also holds `get_task_status`, `list_tasks` and `create_task`'s specification. |
| `Sections` | sections.dfy | What the splitter promises, and the invariants of its loops. |
| `Splitter` | splitter.dfy | The splitter's loops, as methods proved against `Sections`. |
| `Text`, `Seqs`, `Sorting`, `Wrappers` | text.dfy, seqs.dfy, sorting.dfy, wrappers.dfy | Support: Python string helpers, lists and dict insertion order, the stable `sorted(..., reverse=True)`, and `Option`/`Result`. |

The class has no control over part of its environment, so that part becomes explicit state:

- `clock(n)` is the n-th reading of `datetime.now()`.
- `writeFault(n)` says whether the n-th save raises, with what message, and whether
  `open(..., 'w')` had already truncated the file.
- The processor callback is a function from (item, output path) to an answer. The answer is a
  message, an `Exception` or a `KeyboardInterrupt`.
- The `uuid4()` drawn for a new task and the `rglob` listing of the input root are parameters.
- The manager counts how often it read the clock and wrote the store, and logs every processor
  call.

## Model

| member | source | states |
|---|---|---|
| `Types.EnumerationSizes` | _types.py:9-32 | There are exactly 3 task kinds, 6 task statuses and 5 item statuses, each listed once. |
| `Types.ParseTaskType` | _types.py:9-13 | A stored string is read back as a task kind exactly when it is that kind's token. |
| `Types.ParseTaskStatus` | _types.py:16-23 | A stored string is read back as a task status exactly when it is that status's token. |
| `Types.ParseFileStatus` | _types.py:26-32 | A stored string is read back as an item status exactly when it is that status's token. |
| `Types.NewFileRecord` | _types.py:35-43 | A record built from its path alone is pending, with no times, no message and no output. |
| `Types.NewTaskInfo` | _types.py:46-61 | A new task keeps the given id, kind, creation time, roots and config. It is created, counts nothing, has no items and no start or end time or error. |
| `Timestamps.IsoFormat` | task_manager.py:255-257 | `isoformat()` is 19 characters long, or 26 when the microsecond is not 0. |
| `Timestamps.IsoFormatSlices` | task_manager.py:255-257 | Each field sits zero-padded at its fixed place in the `isoformat()` text, between its separators. |
| `Timestamps.FromIsoFormat` | task_manager.py:59-61 | Only 19- or 26-character strings parse. |
| `Timestamps.IsoRoundTrip` | task_manager.py:59-61 | Any datetime written by `isoformat()` is read back unchanged by `fromisoformat()`. |
| `Timestamps.OrdinalOrders` | task_manager.py:182 | The number used as the sort key orders two datetimes exactly as `datetime` comparison does: by the first field in which they differ. |
| `Paths.Parent` | task_manager.py:207 | `parent` drops the last part (the name) and keeps absoluteness and validity. |
| `Paths.LastIndexOf` | task_manager.py:232 | Returns the position of the last occurrence of the character, or -1 when it does not occur. |
| `Paths.RelativeTo` | task_manager.py:226 | `relative_to` succeeds exactly when the root is a leading run of the path's parts with the same anchor. On success the root's parts followed by the result's give the path back. |
| `Seqs.Dedup` | task_manager.py:206-209 | The keys a dict ends with after inserting a list in order: no repeats, exactly the list's elements, and no longer than the list. |
| `Seqs.DedupSnoc` | task_manager.py:208-209 | Inserting one more key appends it unless the dict already holds it. |
| `Sorting.SortDescendingCorrect` | task_manager.py:182 | `sorted(..., reverse=True)` gives a permutation of the list, sorted with the largest key first. It is stable: elements with equal keys keep their relative order. |
| `Text.SplitJoin` | split_by_meaning.py:49 | Joining the pieces of `split(c)` with `c` gives the string back. |
| `Text.SplitStrJoin` | split_by_meaning.py:94 | Joining the pieces of `split("\n\n")` with `"\n\n"` gives the string back. |
| `TaskStore.Content` | task_manager.py:56-57 | A task file is unreadable as JSON exactly when it was left torn. |
| `TaskStore.DecodeEncodeTime` | task_manager.py:59-61 | A timestamp survives a save and a load, whether it is set or null. |
| `TaskStore.DecodeEncodeFile` | task_manager.py:64-69 | An item record survives a save and a load. |
| `TaskStore.DecodeTask` | task_manager.py:56-72 | A JSON record that loads as a task gives a task whose insertion order lists each item key once. |
| `TaskStore.DecodeTaskParts` | task_manager.py:64-72 | A record whose parts each convert back to a task's parts loads as that task. |
| `TaskStore.DecodeEncodeTask` | task_manager.py:249-269 | The record `_save_task` writes loads back as the same task, field for field. |
| `TaskStore.TaskFileStem` | task_manager.py:178 | The stem of a task file's name is the prefix followed by the id. |
| `TaskStore.TaskFileNameRecoversId` | task_manager.py:177-178 | Suppose the prefix is not empty and the id does not contain it. Then the task file matches the glob, and the id read off its name is the id. |
| `TaskStore.InnerPrefixIsRemovedToo` | task_manager.py:178 | Counterexample: with prefix `t_`, the file of the task `at_b` is read back as id `ab`. |
| `TaskStore.Load` | task_manager.py:49-72 | `load_task` finds nothing exactly when the task file is missing. Any task it finds lists each item key once. |
| `TaskStore.LoadAfterSave` | task_manager.py:49-72 | Loading a task right after a complete save gives back the task saved. |
| `TaskStore.AfterSave` | task_manager.py:249-269 | A save changes no file but its task's. That file then holds the task if the save succeeded, is torn if it failed after `open` truncated it, and is as before (or still missing) if `open` itself failed. |
| `TaskStore.LoadAfterFailedSave` | task_manager.py:49-72 | After a save that failed in `open`, every lookup gives what it gave before. After one that failed while writing, the task is unreadable. Other tasks read as before either way. |
| `TaskPaths.DocumentCandidates` | task_manager.py:199-202 | For `pdf2image` and `full_pipeline` the scan inserts exactly the listed `.pdf` entries, in order. |
| `TaskPaths.FolderCandidates` | task_manager.py:204-209 | For `img2markdown` the scan inserts the parent folder of each listed `.jpg` entry, in order. |
| `TaskPaths.ScanStep` | task_manager.py:201-214 | One more listed entry adds its key at the end of the dict's order, unless the dict already holds it. |
| `TaskPaths.PutFresh` | task_manager.py:208-209 | A new key goes to the end of the order with a fresh record. A key already present leaves the order as it was. |
| `TaskPaths.ScanInputFiles` | task_manager.py:194-216 | The items are the distinct candidate keys in first-seen order, each with a fresh pending record. |
| `Text.ReplaceChar` | task_manager.py:236-237 | `replace` of one character by another keeps the length, leaves every other character in place and leaves no occurrence of the replaced character. |
| `TaskPaths.GenerateOutputPath` | task_manager.py:218-247 | Output-path generation raises exactly when a document lies outside the input root. It raises the `AttributeError` from `.parent` of the `str` fallback, never for `img2markdown`. |
| `TaskPaths.DocumentOutputShape` | task_manager.py:230-242 | For any item strictly below the input root (every item the scan yields), the output lies below the output root at the item's own place below the input root. It is named after its stem, with `.md` for the full pipeline. A stem of `.` (a document named `..pdf`) adds no part for `pdf2image`. |
| `TaskPaths.DocumentOutputsDistinct` | task_manager.py:230-242 | Two different `.pdf` documents below the input root never share an output path, unless one is named `.pdf` or `..pdf`. Those two names do collide, as the next two rows show. |
| `TaskPaths.DotStemCollides` | task_manager.py:232 | Counterexample: `in/d/..pdf` and `in/d.pdf` both map to `out/d`, because `/ "."` adds nothing. |
| `TaskPaths.DotPdfCollides` | task_manager.py:232 | Counterexample: `in/.pdf` and `in/.pdf.pdf` both map to `out/.pdf`, because pathlib gives `.pdf` no suffix, so its stem is the whole name. |
| `TaskPaths.FolderOutputShape` | task_manager.py:234-238 | For every item, an image folder's output is `out/<parent name>/<folder name>.md`, with every `：` in the two names replaced by `_`, whatever its depth below the input root. An item of one part (such as `images` under the root `images`) has no parent name and gives `out/images.md`. |
| `TaskPaths.FolderOutputsCollide` | task_manager.py:234-238 | Counterexample: two different folders `in/a/x/y` and `in/b/x/y` map to one output. |
| `Orchestration.Attempt` | task_manager.py:102-126 | The per-item `try` changes only the item and the counters. It calls the processor at most once, and only for the item. It keeps the record on an interrupt. |
| `Orchestration.VisitItem` | task_manager.py:92-130 | One turn of the loop keeps the set of items. |
| `Orchestration.RunItems` | task_manager.py:92-130 | The item loop keeps the set of items. |
| `Orchestration.VisitItemFrame` | task_manager.py:97-130 | A visit touches only its item's status, times, message and output, and the counters. It stamps the start time from the clock and only appends to the processor calls, all for this item. |
| `Orchestration.VisitItemOutcome` | task_manager.py:114-130 | When the loop goes on, the item is either completed with an output path or failed with a message, and exactly the matching counter rises by one. Its end time is set. |
| `Orchestration.VisitItemSaves` | task_manager.py:97-130 | A visit that raised no exception, whether the loop goes on or was interrupted, leaves the task it produced in the task's file. |
| `Orchestration.VisitItemCalls` | task_manager.py:102-112 | When the loop goes on, the visit called the processor once exactly when the item's output path could be derived, and otherwise not at all. |
| `Orchestration.VisitItemInterrupted` | task_manager.py:128-143 | An interrupt leaves the item `processing` with its end time stamped, and counts nothing. |
| `Orchestration.UnmappableItemFails` | task_manager.py:225-232 | A document outside the input root fails with the `AttributeError` message, and the processor is not called. |
| `Orchestration.RunItemsKeeps` | task_manager.py:92-95 | The loop keeps the task's header. It leaves alone every item outside the walked keys and every item it skips. |
| `Orchestration.RunItemsCalls` | task_manager.py:92-112 | The loop only appends processor calls, each for an item it walked and did not skip. |
| `Orchestration.RunItemsCounts` | task_manager.py:114-126 | A loop that finishes raises the two counters together by the number of items it visited. |
| `Orchestration.RunItemsSettles` | task_manager.py:92-126 | A finished loop leaves every item it walked completed or failed, with or without resume. |
| `Orchestration.RunItemsCallsEach` | task_manager.py:92-112 | A finished loop has passed to the processor every item it did not skip and whose output path could be derived. |
| `Orchestration.RunItemsTally` | task_manager.py:114-126 | A finished loop over items none of which was completed adds to each counter the number of items that ended in that counter's status. |
| `Orchestration.ResumeAllCompleted` | task_manager.py:94-95 | Resuming over completed items changes nothing. |
| `Orchestration.StartCases` | task_manager.py:78-80 | An unknown id returns False and changes nothing. An unreadable task file raises before anything changes. Otherwise the loaded task is run. |
| `Orchestration.ConcludeEnds` | task_manager.py:133-150 | After the loop, the task keeps its id, items and counters. A normal finish makes it `completed` with an end time, and only that returns True. An interrupt makes it `paused`. An exception makes it `failed` with the message. Whenever `start_task` returns, the task's file holds the task it ends with. |
| `Orchestration.StartEnds` | task_manager.py:83-150 | Once a task is loaded, the run keeps its id and order, stamps a start time only if it has none, and ends in one of the three ways above. Whenever `start_task` returns, `load_task` gives back the task it ends with. |
| `Orchestration.CheckpointLoads` | task_manager.py:49-72 | A task whose file holds it is what `load_task` reads back. |
| `Orchestration.FreshRunTally` | task_manager.py:92-137 | A fresh task's run that returns True has counted every item once. Completed plus failed equals the number of items, and each counter matches the items in its status. |
| `Orchestration.StatusesSum` | task_manager.py:114-126 | When every item is completed or failed, the two counts add up to the number of items. |
| `Orchestration.ResumeCompletedTaskIsIdle` | task_manager.py:94-95 | Resuming a task whose items are all completed calls the processor for none of them, and keeps the items and the counters. |
| `Orchestration.RerunDoublesCounters` | task_manager.py:92-126 | Take a task that has already been counted in full. Rerun without resume, it reaches counters that sum to twice its items, because nothing resets them. |
| `Orchestration.RerunCallsEveryItem` | task_manager.py:92-130 | Without resume, a run that returns True has processed every item again, completed ones included. Each ends completed or failed, and each whose output path can be derived was passed to the processor during the run. |
| `Orchestration.ResumeSkipsCompleted` | task_manager.py:94-95 | With resume, a completed item keeps its record and is never passed to the processor. |
| `Orchestration.AttemptIgnoresStore` | task_manager.py:102-126 | What happens to an item does not depend on the tasks directory. |
| `Orchestration.VisitIgnoresStore` | task_manager.py:92-130 | A visit started over another directory makes the same calls and the same task. |
| `Orchestration.RunItemsIgnoresStore` | task_manager.py:92-130 | Neither does the whole loop read the tasks directory. |
| `Orchestration.ConcludeIgnoresStore` | task_manager.py:133-150 | Neither do the handlers after the loop. |
| `Orchestration.CancelDoesNotStopRun` | task_manager.py:184-192 | A run ends the same way over any tasks directory. So rewriting the task file as cancelled while it runs does not stop it, and the run's next save overwrites the cancellation. |
| `Tasks.StatusOf` | task_manager.py:161-172 | The status view repeats the task's id, status and creation time. Its progress is 0 for a task without items and `processed / total` otherwise, so it lies in [0, 1] when the counters do. |
| `Tasks.GetTaskStatus` | task_manager.py:155-172 | `get_task_status` returns None exactly when the task file is missing. A view it returns belongs to the loaded task. |
| `Tasks.StatusAfterSave` | task_manager.py:155-172 | Right after a save, the status reports the saved task. |
| `Tasks.FreshRunProgress` | task_manager.py:161-168 | After a fresh task runs to completion, progress is completed items over all items, and failed items make up the rest. |
| `Tasks.CollectRaisedStays` | task_manager.py:177-181 | Once reading one listed task file has raised, the whole listing raises. |
| `Tasks.SavedTaskIsListed` | task_manager.py:177-181 | A saved task whose file is walked, and whose id does not contain the prefix, appears in the collected views. |
| `Tasks.EveryTaskIsListed` | task_manager.py:174-182 | Take every task file in the directory, written under an id that does not contain the prefix. Its view appears in the result of `list_tasks`. |
| `Tasks.ListSpecSorted` | task_manager.py:182 | `list_tasks` raises exactly when gathering raised. Otherwise its result is newest first, a permutation of the gathered views, and stable for equal creation times. |
| `Tasks.CreatedTaskFacts` | task_manager.py:26-47 | A created task keeps the given id, kind, time, roots and config (empty when none is given). Its items are the distinct scanned keys, all pending, `total_files` is their number, and nothing is counted. Its status is created with progress 0. |
| `Tasks.CreatedTaskIs` | task_manager.py:32-41 | The task `create_task` assembles step by step is `CreatedTask`, and its insertion order lists each item once. |
| `Tasks.TaskManager.constructor` | task_manager.py:18-24 | A new manager sits over the given directory with no current task, no readings, no writes and no calls. |
| `Tasks.TaskManager.Now` | task_manager.py:84-85 | Returns the next clock reading and counts it. Nothing else changes. |
| `Tasks.TaskManager.SaveTask` | task_manager.py:249-269 | Writes the task's file and reports any failure. A failed save leaves the file torn when `open` had truncated it, and untouched when `open` itself failed. Counts the write and changes nothing else. |
| `Tasks.TaskManager.CreateTask` | task_manager.py:26-47 | Reads the clock once and saves `CreatedTask`. Returns the new id unless the save raised. A task it returns is then loadable and reports status created. |
| `Tasks.TaskManager.Handle` | task_manager.py:139-150 | The `except` handlers: set the status and message, save, and return False. They raise if the save raises. |
| `Tasks.TaskManager.TryItem` | task_manager.py:102-126 | The per-item `try`, exactly as `Orchestration.Attempt`. |
| `Tasks.TaskManager.Visit` | task_manager.py:92-130 | One loop turn, exactly as `Orchestration.VisitItem`. |
| `Tasks.TaskManager.RunLoop` | task_manager.py:92-130 | The item loop, exactly as `Orchestration.RunItems` over the insertion order. |
| `Tasks.TaskManager.Finish` | task_manager.py:133-150 | What follows the loop, exactly as `Orchestration.Conclude`. |
| `Tasks.TaskManager.StartTask` | task_manager.py:74-153 | `start_task` changes the directory, the counters, `current_task` and the result exactly as `Orchestration.StartSpec` says. |
| `Tasks.TaskManager.ListTasks` | task_manager.py:174-182 | `list_tasks` over the glob's names is `ListSpec`. What it returns is newest first. |
| `Tasks.TaskManager.CancelTask` | task_manager.py:184-192 | An unknown id returns False and an unreadable file raises, both without change. A found task is saved as cancelled whatever its status, and then reports cancelled. |
| `Sections.ScanStart` | split_by_meaning.py:49-57 | Before the first line, no section is closed and an empty introduction is open. |
| `Sections.ScanAppend` | split_by_meaning.py:79-82 | A line that is not an accepted header joins the open section and keeps the loop invariant. |
| `Sections.ScanHeader` | split_by_meaning.py:61-78 | An accepted header closes the open section if it holds a line, and opens its own section. That section is numbered by position, titled without `#`, and has the header's level. |
| `Sections.ScanFinish` | split_by_meaning.py:85-88 | Closing the last section leaves sections that tile every line in order. Each is labelled by its position, and none has a header after its first line. |
| `Sections.Lossless` | split_by_meaning.py:47-90 | Sections that tile the lines give the document back when joined with newlines. |
| `Sections.OversizedIsSingle` | split_by_meaning.py:104-122 | A section longer than `max_chars` holds a single non-empty paragraph. |
| `Sections.ContentSnoc` | split_by_meaning.py:118-121 | Adding a paragraph appends it after a blank line to a section with content, or makes it the whole content. |
| `Sections.GroupStart` | split_by_meaning.py:94-102 | The loop starts with an empty "Section 1". |
| `Sections.GroupAppend` | split_by_meaning.py:117-122 | A paragraph within the limit, or one reaching a section without content, joins the open section. |
| `Sections.GroupBreak` | split_by_meaning.py:108-116 | A paragraph that would take a section with content over the limit closes it and opens the next. That section is numbered `len(sections) + 2`. |
| `Sections.GroupClose` | split_by_meaning.py:125-126 | After the loop, an open section with content is kept. |
| `Sections.GroupDrop` | split_by_meaning.py:125-126 | An open section without content is dropped, and only empty paragraphs are lost with it. |
| `Sections.LengthLossless` | split_by_meaning.py:92-128 | When no paragraph is empty, joining the sections with blank lines gives the document back. |
| `Sections.FuseContent` | split_by_meaning.py:141-142 | A merged section holds its run's contents joined with blank lines. |
| `Sections.FuseHead` | split_by_meaning.py:137-148 | A merged section keeps its first section's number, first line and level. |
| `Sections.FuseTitle` | split_by_meaning.py:144-145 | A merged section's title is the first title and the later non-empty titles, joined with " / ". |
| `Sections.LastEndIs` | split_by_meaning.py:143 | `LastEnd`, the end line of the last section that has one, is absent exactly when no section has one. Otherwise it is some section's end line, and no later section has one. |
| `Sections.FuseEnd` | split_by_meaning.py:143 | A section merged from several ends at `LastEnd` of its run, whether that comes from the last section or an earlier one, or at line 0 when no section has one. A single section keeps its own end line. |
| `Sections.MergeAbsorb` | split_by_meaning.py:141-145 | A section is absorbed only into a current section that is still shorter than `min_chars`. |
| `Sections.MergeClose` | split_by_meaning.py:146-148 | A current section that is long enough is closed, and the next section opens a new run. |
| `Sections.MergeEnd` | split_by_meaning.py:150 | The last current section is closed too, and the runs cover the input in order. |
| `Sections.MergeKeepsContent` | split_by_meaning.py:130-155 | Merging loses nothing: the joined contents are unchanged. There are no more sections than before, and at least one if there was one. |
| `Sections.MergeNothingSmall` | split_by_meaning.py:130-155 | When no section but the last is shorter than `min_chars`, merging only renumbers. |
| `Sections.Slug` | split_by_meaning.py:171-172 | The slug is at most 50 characters of the lower-cased title. Letters, digits, `-` and `_` are kept and every other character becomes `_`. |
| `Sections.SectionNumberValue` | split_by_meaning.py:170 | For a non-negative id, `zfill(3)` gives at least three digits whose value is the id. |
| `Sections.SectionFileName` | split_by_meaning.py:173 | The file name starts with `{base}_` and ends with `.md`. |
| `Sections.FileNamesDistinct` | split_by_meaning.py:170-173 | Sections with different non-negative ids get different file names, whatever their titles. |
| `Splitter.ScanLine` | split_by_meaning.py:59-82 | One pass of the header loop keeps the scan invariant. |
| `Splitter.ScanLines` | split_by_meaning.py:59-82 | After the header loop, the invariant holds for every line. |
| `Splitter.SplitByHeaders` | split_by_meaning.py:47-90 | There is at least one section. The sections tile the lines in order, each labelled by its position and with no inner header. Joined with newlines they give the document back. |
| `Splitter.Absorb` | split_by_meaning.py:105-122 | One pass of the length loop keeps the grouping invariant. |
| `Splitter.GroupParagraphs` | split_by_meaning.py:104-122 | After the length loop, the grouping invariant holds for every paragraph. |
| `Splitter.SplitByLength` | split_by_meaning.py:92-128 | The paragraphs are cut into consecutive groups, one per non-empty section, plus trailing empty paragraphs. Each section holds its group joined with blank lines and is numbered 1, 3, 4, …. A group starts only when its first paragraph would take the previous section over `max_chars`. |
| `Splitter.MergeRuns` | split_by_meaning.py:136-150 | The first merge loop cuts the input into consecutive runs, each merged into one section. Every merged section but the last reaches `min_chars`. |
| `Splitter.MergeSmallSections` | split_by_meaning.py:130-155 | Empty input stays empty. Otherwise the result is the runs merged and renumbered from 1, as `MergedInto` states. |

## Left out

- The status-update thread (`_start_status_update`, `_stop_status_update_thread` and `_status_update_worker`, task_manager.py:271-289) is not modelled. It only saves `current_task` every few seconds from another thread, and concurrency is outside the model. `Orchestration.CancelDoesNotStopRun` shows a run never reads the directory, so an extra save of the same task changes nothing the model tracks.
- File-system and JSON I/O are abstracted:
  - The tasks directory is a map from file name to content.
  - A file holds a task written in full, a JSON record, or is `Torn`. A save that raises after `open(..., 'w')` truncated the file leaves it torn. One whose `open` raised leaves the file as it was.
  - `mkdir` is not modelled.
  - JSON syntax is not modelled. Decoding is modelled at the level of field values.
- The `print` calls, the configuration loader (`config_loader.py`), the `tasks_dir` setting and `status_update_interval` are left out. The file prefix is a constant of the manager.
- The values of `uuid4()` and `datetime.now()` are inputs, not generated.
- The `rglob` walk's order is an input, so the model does not fix the order in which items are found.
- Progress is kept as the pair `processed / total`, not as a floating-point number.
- `SemanticSplitter.__init__` and `analyze_document_structure` (the LLM call) are not modelled.
- Of `save_sections`, only the file-name expression is modelled. The directory creation, file writes and metadata file are not.
- The `main.py` command line and the converters `convert_pdf2img.py` and `convert_img2markdown.py` are not part of this model. The processor callback stands for them.
- Text and path handling:
  - `str.isalnum` and `str.lower` are modelled for ASCII, plus CJK ideographs as letters.
  - The task-file glob assumes a prefix without glob wildcards.
  - Paths are POSIX paths without a leading `//`.
- `merge_small_sections` updates the input dicts in place, so the caller's first section of each run is changed too. The model returns new values, and this aliasing is not captured.
- `load_task` fills fields missing from a JSON record with their pydantic defaults. The model's records always have every field.
- Any validation error beyond a bad enum token or timestamp is treated as a record that does not load.
- `save_sections`' fallback title `'section'` for a dict without a title does not arise: every section the model builds has a title.
- `Types.ParseTaskType`, `Types.ParseTaskStatus` and `Types.ParseFileStatus` accept only the exact tokens. The model does not cover pydantic accepting enum members themselves.
- DocumentOutputsDistinct: holds only for documents named neither `.pdf` nor `..pdf`. Those names collide with a sibling (`TaskPaths.DotPdfCollides`, `TaskPaths.DotStemCollides`).

### Behaviours of the code the model makes explicit

- `split_by_length` numbers its sections 1, 3, 4, 5, …, because it computes `len(sections) + 2` after appending. See `Sections.LengthSectionId` and `Splitter.SplitByLength`.
- A missing input root is not an error: `rglob` yields nothing and the task has no items.
- Saving is not atomic. A write that fails after `open` truncated the file leaves an unreadable task file, which later makes `load_task` raise (`TaskStore.LoadAfterFailedSave`).
- Output paths can collide: `TaskPaths.DotStemCollides`, `TaskPaths.DotPdfCollides` and `TaskPaths.FolderOutputsCollide`.
- An interrupted item stays `processing` (`Orchestration.VisitItemInterrupted`).
- Without resume, the counters are not reset (`Orchestration.RerunDoublesCounters`).
- Cancelling a task does not stop a run of it (`Orchestration.CancelDoesNotStopRun`).
- An id that contains the prefix is misread by `list_tasks` (`TaskStore.InnerPrefixIsRemovedToo`).
- A document outside the input root fails through an `AttributeError` rather than getting a fallback output path (`Orchestration.UnmappableItemFails`).
