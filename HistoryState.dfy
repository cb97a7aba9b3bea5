/** The state of the extraction-history screen and the events that change it.

    The six pieces of screen state are kept together with what the polling effect captured
    when it last ran: the task list its interval callback reads, the `?task=` id its fetch
    uses, and whether its interval is still set. Each asynchronous handler is split into the
    event that issues a request and the event that delivers its outcome; the pure transition
    functions below say what every event does, and the class `HistoryPage` performs them
    field by field. */
module HistoryState {
  import opened Wrappers
  import opened Json
  import opened Preview
  import opened HistoryView
  import Artifacts

  /** The six state hooks of the screen, plus the values the polling effect captured. */
  datatype PageState = PageState(
    tasks: seq<Task>,
    isLoading: bool,
    selectedTask: Option<Task>,
    selectedFileIndex: Option<int>,
    tableData: Json,
    isLoadingPreview: bool,
    capturedTasks: seq<Task>,
    urlTaskId: Option<string>,
    polling: bool)

  /** `GET /preview/{task_id}/{fileIndex}`. */
  datatype PreviewRequest = PreviewRequest(taskId: string, fileIndex: int)

  /** The initial hook values: no tasks, loading, nothing selected, no rows. */
  function Init(): PageState {
    PageState([], true, None, None, JArray([]), false, [], None, false)
  }

  // ----- Task list refresh and polling -----

  /** `data.find(t => t.task_id === id)`: the first task with that id. */
  function FindTask(tasks: seq<Task>, id: string): (r: Option<Task>)
    ensures r.None? <==> forall i :: 0 <= i < |tasks| ==> tasks[i].taskId != id
    ensures r.Some? ==>
      exists i :: 0 <= i < |tasks| && tasks[i] == r.value && r.value.taskId == id &&
        forall j :: 0 <= j < i ==> tasks[j].taskId != id
  {
    if tasks == [] then None
    else if tasks[0].taskId == id then Some(tasks[0])
    else
      var r := FindTask(tasks[1..], id);
      assert r.Some? ==>
        exists i :: 1 <= i < |tasks| && tasks[i] == r.value && r.value.taskId == id &&
          forall j :: 0 <= j < i ==> tasks[j].taskId != id
      by {
        if r.Some? {
          var i :| 0 <= i < |tasks[1..]| && tasks[1..][i] == r.value &&
            forall j :: 0 <= j < i ==> tasks[1..][j].taskId != id;
          assert tasks[i + 1] == r.value;
        }
      }
      r
  }

  /** `tasks.some(task => task.status === "processing")`. */
  function AnyProcessing(tasks: seq<Task>): (r: bool)
    ensures r <==> exists i :: 0 <= i < |tasks| && tasks[i].status == "processing"
  {
    if tasks == [] then false
    else tasks[0].status == "processing" || AnyProcessing(tasks[1..])
  }

  /** The task the `?task=` id picks out of a fresh list: only a non-empty id is looked up. */
  function UrlSelection(urlTaskId: Option<string>, data: seq<Task>): Option<Task> {
    if urlTaskId.Some? && urlTaskId.value != "" then FindTask(data, urlTaskId.value) else None
  }

  /** The effect runs (first render, or a change of session or URL id): the previous run's
      interval is cleared; with a session, the current task list and URL id are captured, a
      new interval is set, and a refresh is issued. */
  function StartEffect(s: PageState, hasSession: bool, urlTaskId: Option<string>): PageState {
    var stopped := s.(polling := false);
    if hasSession then stopped.(capturedTasks := s.tasks, urlTaskId := urlTaskId, polling := true)
    else stopped
  }

  /** A refresh answered with a task list: the list is replaced, the URL task is selected if
      it is in the new list, and loading ends. */
  function RefreshSucceeded(s: PageState, data: seq<Task>): PageState {
    var found := UrlSelection(s.urlTaskId, data);
    s.(tasks := data, selectedTask := if found.Some? then found else s.selectedTask, isLoading := false)
  }

  /** A refresh that failed (transport error or a non-OK response): loading ends. */
  function RefreshFailed(s: PageState): PageState {
    s.(isLoading := false)
  }

  /** A poll tick issues a refresh when the interval is set and the list captured by the
      effect holds a processing task. */
  predicate PollFires(s: PageState) {
    s.polling && AnyProcessing(s.capturedTasks)
  }

  /** The effect's cleanup: the interval is cleared. */
  function Teardown(s: PageState): PageState {
    s.(polling := false)
  }

  // ----- Preview loading and task selection -----

  /** The request `fetchTablePreview` issues: none without a session; the index is not
      checked against `result_files`. */
  function PreviewRequestFor(hasSession: bool, task: Task, fileIndex: int): Option<PreviewRequest> {
    if hasSession then Some(PreviewRequest(task.taskId, fileIndex)) else None
  }

  /** `fetchTablePreview` up to its request: without a session nothing changes; otherwise the
      preview starts loading and the task and index become the selection. */
  function RequestPreview(s: PageState, hasSession: bool, task: Task, fileIndex: int): PageState {
    if !hasSession then s
    else s.(isLoadingPreview := true, selectedTask := Some(task), selectedFileIndex := Some(fileIndex))
  }

  /** A preview answered with a body: its rows replace `tableData` unless reading the body
      throws; loading ends either way. */
  function PreviewSucceeded(s: PageState, body: Json): PageState {
    match Normalize(body)
    case Rows(rows) => s.(tableData := rows, isLoadingPreview := false)
    case ReadOnNull => s.(isLoadingPreview := false)
  }

  /** A preview that failed: loading ends and the rows stay. */
  function PreviewFailed(s: PageState): PageState {
    s.(isLoadingPreview := false)
  }

  /** A click on a task row: the task is selected; a task with result files previews index 0,
      one without clears the index and the rows. */
  function ClickRow(s: PageState, hasSession: bool, task: Task): PageState {
    var picked := s.(selectedTask := Some(task));
    if |task.resultFiles| > 0 then RequestPreview(picked, hasSession, task, 0)
    else picked.(selectedFileIndex := None, tableData := JArray([]))
  }

  /** The request a row click issues. */
  function ClickRequest(hasSession: bool, task: Task): Option<PreviewRequest> {
    if |task.resultFiles| > 0 then PreviewRequestFor(hasSession, task, 0) else None
  }

  // ----- Properties -----

  /** A refresh with a session replaces the task list wholesale; a found URL task becomes the
      selection, and otherwise the selection is kept, never cleared. On failure the list is
      kept. Loading ends after either outcome. */
  lemma RefreshOutcomes(s: PageState, data: seq<Task>)
    ensures var r := RefreshSucceeded(s, data);
      r.tasks == data && !r.isLoading &&
      r.selectedFileIndex == s.selectedFileIndex && r.tableData == s.tableData &&
      r.capturedTasks == s.capturedTasks && r.polling == s.polling
    ensures var r := RefreshSucceeded(s, data);
      (s.urlTaskId.Some? && s.urlTaskId.value != "" &&
       (exists i :: 0 <= i < |data| && data[i].taskId == s.urlTaskId.value))
      ==> r.selectedTask.Some? && r.selectedTask.value in data && r.selectedTask.value.taskId == s.urlTaskId.value
    ensures var r := RefreshSucceeded(s, data);
      (s.urlTaskId.None? || s.urlTaskId.value == "" ||
       (forall i :: 0 <= i < |data| ==> data[i].taskId != s.urlTaskId.value))
      ==> r.selectedTask == s.selectedTask
    ensures s.selectedTask.Some? ==> RefreshSucceeded(s, data).selectedTask.Some?
    ensures RefreshFailed(s) == s.(isLoading := false)
  {
  }

  /** A tick fires exactly when the interval is set and some task of the captured list is
      processing; a tick changes no state. */
  lemma PollTickRule(s: PageState)
    ensures PollFires(s) <==>
      s.polling && exists i :: 0 <= i < |s.capturedTasks| && s.capturedTasks[i].status == "processing"
    ensures !PollFires(Teardown(s))
    ensures !PollFires(StartEffect(s, false, s.urlTaskId))
    ensures PollFires(StartEffect(s, true, s.urlTaskId)) <==> AnyProcessing(s.tasks)
  {
  }

  /** What a tick reads is fixed when the effect runs: refreshes, clicks and previews never
      change it. */
  lemma OnlyTheEffectChangesPolling(s: PageState, data: seq<Task>, has: bool, task: Task, i: int, body: Json)
    ensures PollFires(RefreshSucceeded(s, data)) == PollFires(s)
    ensures PollFires(RefreshFailed(s)) == PollFires(s)
    ensures PollFires(ClickRow(s, has, task)) == PollFires(s)
    ensures PollFires(RequestPreview(s, has, task, i)) == PollFires(s)
    ensures PollFires(PreviewSucceeded(s, body)) == PollFires(s)
    ensures PollFires(PreviewFailed(s)) == PollFires(s)
  {
  }

  /** A task that is still processing. */
  function ProcessingTask(): Task {
    Task("A", "", "processing", "", None, "document", "scan.pdf", 0, [])
  }

  /** As written: the effect runs once with a session, its refresh returns a processing task,
      and still no tick refreshes, because the ticks read the empty list captured on mount. */
  lemma CapturedListHidesProcessingTask()
    ensures var s := RefreshSucceeded(StartEffect(Init(), true, None), [ProcessingTask()]);
      AnyProcessing(s.tasks) && !PollFires(s) &&
      !PollFires(RefreshSucceeded(s, [ProcessingTask()]))
  {
  }

  /** The intended poll rule: a tick reads the current task list. */
  predicate LivePollFires(s: PageState) {
    s.polling && AnyProcessing(s.tasks)
  }

  /** The converse of the hidden processing task: once an effect re-run has captured a list
      with a processing task, ticks keep refreshing even after a later refresh reports that
      no task is processing any more. */
  lemma CapturedListKeepsPolling(done: Task)
    requires done.status != "processing"
    ensures var mounted := RefreshSucceeded(StartEffect(Init(), true, None), [ProcessingTask()]);
      var s := RefreshSucceeded(StartEffect(mounted, true, None), [done]);
      !AnyProcessing(s.tasks) && PollFires(s)
  {
  }

  /** Under the intended rule, polling resumes as soon as a refresh returns a processing
      task and stops once a refresh returns none; the scenario of
      `CapturedListHidesProcessingTask` now fires. */
  lemma LivePollFollowsRefresh(s: PageState, data: seq<Task>)
    requires s.polling
    ensures LivePollFires(RefreshSucceeded(s, data)) <==>
      exists i :: 0 <= i < |data| && data[i].status == "processing"
    ensures LivePollFires(RefreshFailed(s)) == LivePollFires(s)
    ensures !LivePollFires(Teardown(s))
    ensures LivePollFires(RefreshSucceeded(StartEffect(Init(), true, None), [ProcessingTask()]))
  {
  }

  /** `fetchTablePreview`: without a session nothing changes and nothing is requested; with
      one, the preview loads and the task and the index, whatever it is, become the selection. */
  lemma RequestPreviewRule(s: PageState, hasSession: bool, task: Task, fileIndex: int)
    ensures !hasSession ==>
      RequestPreview(s, hasSession, task, fileIndex) == s && PreviewRequestFor(hasSession, task, fileIndex).None?
    ensures hasSession ==>
      var r := RequestPreview(s, hasSession, task, fileIndex);
      r.isLoadingPreview && r.selectedTask == Some(task) && r.selectedFileIndex == Some(fileIndex) &&
      r.tasks == s.tasks && r.tableData == s.tableData && r.isLoading == s.isLoading &&
      PreviewRequestFor(hasSession, task, fileIndex) == Some(PreviewRequest(task.taskId, fileIndex))
  {
  }

  /** A preview outcome ends loading; a failure, or a `null` body, leaves the rows as they
      were; a body that can be read replaces them; the selection is not touched. */
  lemma PreviewOutcomeRule(s: PageState, body: Json)
    ensures !PreviewSucceeded(s, body).isLoadingPreview && !PreviewFailed(s).isLoadingPreview
    ensures PreviewFailed(s).tableData == s.tableData
    ensures body.JNull? ==> PreviewSucceeded(s, body) == s.(isLoadingPreview := false)
    ensures !body.JNull? ==> PreviewSucceeded(s, body).tableData == Normalize(body).rows
    ensures PreviewSucceeded(s, body).selectedFileIndex == s.selectedFileIndex
    ensures PreviewSucceeded(s, body).selectedTask == s.selectedTask
  {
  }

  /** Nothing matches responses to requests: after asking for index 0 and then index 1, a
      response for 0 that arrives last sets the rows while index 1 stays selected. */
  lemma LastArrivingPreviewWins(s: PageState, task: Task, rows0: seq<Json>, rows1: seq<Json>)
    ensures var asked := RequestPreview(RequestPreview(s, true, task, 0), true, task, 1);
      var done := PreviewSucceeded(PreviewSucceeded(asked, JArray(rows1)), JArray(rows0));
      done.selectedFileIndex == Some(1) && done.tableData == JArray(rows0) && !done.isLoadingPreview
  {
  }

  /** A row click always selects the task. With result files it previews index 0 (when a
      session exists); without any it clears the index and the rows and requests nothing. */
  lemma ClickRowRule(s: PageState, hasSession: bool, task: Task)
    ensures ClickRow(s, hasSession, task).selectedTask == Some(task)
    ensures |task.resultFiles| > 0 && hasSession ==>
      ClickRow(s, hasSession, task) == RequestPreview(s, true, task, 0) &&
      ClickRequest(hasSession, task) == Some(PreviewRequest(task.taskId, 0))
    ensures |task.resultFiles| > 0 && !hasSession ==>
      ClickRow(s, hasSession, task) == s.(selectedTask := Some(task)) &&
      ClickRequest(hasSession, task).None?
    ensures |task.resultFiles| == 0 ==>
      ClickRow(s, hasSession, task) == s.(selectedTask := Some(task), selectedFileIndex := None, tableData := JArray([])) &&
      ClickRequest(hasSession, task).None?
  {
  }

  /** The list highlights by id, not by value: after a refresh that brings a newer snapshot
      of the selected task (and no URL match), the selection still holds the old snapshot,
      yet the new row with the same id is highlighted. */
  lemma HighlightFollowsIdNotSnapshot(s: PageState, t: Task)
    requires s.urlTaskId.None? && s.selectedTask.Some?
    requires s.selectedTask.value.taskId == t.taskId && s.selectedTask.value != t
    ensures RefreshSucceeded(s, [t]).selectedTask == s.selectedTask
    ensures RefreshSucceeded(s, [t]).selectedTask.value != t
    ensures RowHighlighted(RefreshSucceeded(s, [t]).selectedTask, t)
  {
  }

  /** A click previews index 0 even when that file is a CSV: the index then matches no
      preview button, so none is highlighted. */
  lemma ClickMayPreviewNonJsonFile(s: PageState)
    ensures var task := Task("B", "", "completed", "", Some(""), "document", "r.pdf", 1, ["t.csv", "t.json"]);
      var r := ClickRow(s, true, task);
      r.selectedFileIndex == Some(0) &&
      forall b :: b in Artifacts.PreviewButtons(task.resultFiles, r.selectedFileIndex) ==> !b.active
  {
  }

  /** The history screen as an object: one field per state hook and per captured value, and
      one method per event. */
  class HistoryPage {
    var tasks: seq<Task>
    var isLoading: bool
    var selectedTask: Option<Task>
    var selectedFileIndex: Option<int>
    var tableData: Json
    var isLoadingPreview: bool
    var capturedTasks: seq<Task>
    var urlTaskId: Option<string>
    var polling: bool

    /** The fields as one value. */
    function State(): PageState
      reads this
    {
      PageState(tasks, isLoading, selectedTask, selectedFileIndex, tableData, isLoadingPreview,
                capturedTasks, urlTaskId, polling)
    }

    constructor ()
      ensures State() == Init()
    {
      tasks := [];
      isLoading := true;
      selectedTask := None;
      selectedFileIndex := None;
      tableData := JArray([]);
      isLoadingPreview := false;
      capturedTasks := [];
      urlTaskId := None;
      polling := false;
    }

    /** The polling effect runs; it reports whether it issued a refresh. */
    method RunEffect(hasSession: bool, taskIdFromUrl: Option<string>) returns (refreshIssued: bool)
      modifies this
      ensures State() == StartEffect(old(State()), hasSession, taskIdFromUrl)
      ensures refreshIssued == hasSession
    {
      polling := false;
      refreshIssued := false;
      if !hasSession {
        return;
      }
      capturedTasks := tasks;
      urlTaskId := taskIdFromUrl;
      refreshIssued := true;
      polling := true;
    }

    /** The task list arrived. */
    method TasksLoaded(data: seq<Task>)
      modifies this
      ensures State() == RefreshSucceeded(old(State()), data)
    {
      tasks := data;
      if urlTaskId.Some? && urlTaskId.value != "" {
        var task := FindTask(data, urlTaskId.value);
        if task.Some? {
          selectedTask := task;
        }
      }
      isLoading := false;
    }

    /** The task list request failed. */
    method TasksFailed()
      modifies this
      ensures State() == RefreshFailed(old(State()))
    {
      isLoading := false;
    }

    /** One firing of the interval; it reports whether it issued a refresh. */
    method Tick() returns (refreshIssued: bool)
      ensures refreshIssued <==>
        polling && exists i :: 0 <= i < |capturedTasks| && capturedTasks[i].status == "processing"
      ensures refreshIssued == PollFires(State())
    {
      refreshIssued := polling && AnyProcessing(capturedTasks);
    }

    /** The effect's cleanup. */
    method ClearInterval()
      modifies this
      ensures State() == Teardown(old(State()))
    {
      polling := false;
    }

    /** `fetchTablePreview(task, fileIndex)` up to its request. */
    method FetchTablePreview(hasSession: bool, task: Task, fileIndex: int) returns (request: Option<PreviewRequest>)
      modifies this
      ensures State() == RequestPreview(old(State()), hasSession, task, fileIndex)
      ensures request == PreviewRequestFor(hasSession, task, fileIndex)
    {
      if !hasSession {
        return None;
      }
      isLoadingPreview := true;
      selectedTask := Some(task);
      selectedFileIndex := Some(fileIndex);
      request := Some(PreviewRequest(task.taskId, fileIndex));
    }

    /** A preview body arrived. */
    method PreviewLoaded(body: Json)
      modifies this
      ensures State() == PreviewSucceeded(old(State()), body)
    {
      var rows := Normalize(body);
      if rows.Rows? {
        tableData := rows.rows;
      }
      isLoadingPreview := false;
    }

    /** The preview request failed. */
    method PreviewRejected()
      modifies this
      ensures State() == PreviewFailed(old(State()))
    {
      isLoadingPreview := false;
    }

    /** A task row was clicked. */
    method ClickTask(hasSession: bool, task: Task) returns (request: Option<PreviewRequest>)
      modifies this
      ensures State() == ClickRow(old(State()), hasSession, task)
      ensures request == ClickRequest(hasSession, task)
    {
      selectedTask := Some(task);
      if |task.resultFiles| > 0 {
        request := FetchTablePreview(hasSession, task, 0);
      } else {
        selectedFileIndex := None;
        tableData := JArray([]);
        request := None;
      }
    }
  }
}
