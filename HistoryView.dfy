/** The task record of the history screen and the display rules derived from it: the
    status icon, the task icon, the row highlight, the detail pane and the preview area. */
module HistoryView {
  import opened Wrappers
  import opened Json

  /** One entry of `GET /tasks`, as the screen declares it. */
  datatype Task = Task(
    taskId: string,
    userEmail: string,
    status: string,
    createdAt: string,
    completedAt: Option<string>,
    fileType: string,
    fileName: string,
    tablesExtracted: int,
    resultFiles: seq<string>)

  datatype StatusIcon = CheckIcon | SpinnerIcon | CrossIcon

  /** `getStatusIcon`: a check mark for "completed", a spinner for "processing", and a red
      cross for every other status, "queued" and unknown ones included. */
  function StatusIconFor(status: string): (r: StatusIcon)
    ensures r == CheckIcon <==> status == "completed"
    ensures r == SpinnerIcon <==> status == "processing"
    ensures r == CrossIcon <==> status != "completed" && status != "processing"
  {
    if status == "completed" then CheckIcon
    else if status == "processing" then SpinnerIcon
    else CrossIcon
  }

  /** A queued task shows the same icon as a failed one. */
  lemma QueuedLooksFailed()
    ensures StatusIconFor("queued") == StatusIconFor("failed") == CrossIcon
  {
  }

  datatype TaskIcon = DocumentIcon | MailIcon

  /** `getTaskIcon`: a document icon for `file_type` "document", otherwise a mail icon. */
  function TaskIconFor(task: Task): (r: TaskIcon)
    ensures r == DocumentIcon <==> task.fileType == "document"
  {
    if task.fileType == "document" then DocumentIcon else MailIcon
  }

  /** A list row is highlighted when the selected task has the same `task_id`
      (`selectedTask?.task_id === task.task_id`). */
  predicate RowHighlighted(selected: Option<Task>, row: Task) {
    selected.Some? && selected.value.taskId == row.taskId
  }

  /** What the right-hand column shows. */
  datatype DetailPane = SelectPrompt | ProcessingPane | FailedPane | NoTablesPane | TabsPane

  /** The detail column, tested in source order: no selection, "processing", "failed",
      `tables_extracted === 0`, and otherwise the preview and download tabs. */
  function DetailPaneFor(selected: Option<Task>): (r: DetailPane)
    ensures r == SelectPrompt <==> selected.None?
    ensures r == ProcessingPane <==> selected.Some? && selected.value.status == "processing"
    ensures r == FailedPane <==> selected.Some? && selected.value.status == "failed"
    ensures r == NoTablesPane <==>
      selected.Some? && selected.value.status != "processing" && selected.value.status != "failed" &&
      selected.value.tablesExtracted == 0
    ensures r == TabsPane <==>
      selected.Some? && selected.value.status != "processing" && selected.value.status != "failed" &&
      selected.value.tablesExtracted != 0
  {
    match selected
    case None => SelectPrompt
    case Some(task) =>
      if task.status == "processing" then ProcessingPane
      else if task.status == "failed" then FailedPane
      else if task.tablesExtracted == 0 then NoTablesPane
      else TabsPane
  }

  /** The status tests come before the table count: a processing or failed task never shows
      "no tables", even with zero tables; and tabs are shown for any other status, such as
      "queued", once the count is non-zero. */
  lemma StatusBeforeTableCount(task: Task)
    ensures task.status == "processing" ==> DetailPaneFor(Some(task)) == ProcessingPane
    ensures task.status == "failed" ==> DetailPaneFor(Some(task)) == FailedPane
    ensures task.status == "queued" && task.tablesExtracted != 0 ==> DetailPaneFor(Some(task)) == TabsPane
  {
  }

  /** What the preview tab shows below its buttons. */
  datatype PreviewArea = PreviewSpinner | PreviewTable | PreviewPrompt

  /** A spinner while a preview loads; otherwise the table when `tableData.length > 0`; and
      otherwise the prompt to pick a table. */
  function PreviewAreaFor(isLoadingPreview: bool, tableData: Json): (r: PreviewArea)
    ensures r == PreviewSpinner <==> isLoadingPreview
    ensures r == PreviewTable <==> !isLoadingPreview && HasPositiveLength(tableData)
    ensures r == PreviewPrompt <==> !isLoadingPreview && !HasPositiveLength(tableData)
  {
    if isLoadingPreview then PreviewSpinner
    else if HasPositiveLength(tableData) then PreviewTable
    else PreviewPrompt
  }
}
