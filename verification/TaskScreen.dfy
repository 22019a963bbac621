/** The task screen's decisions: whether the list or the empty placeholder is
    shown, the stop command a row's stop button sends to the recording
    service, and the guard in front of deleting a task. */
module TaskScreen {
  import opened Optional
  import opened Tasks
  import opened TaskRows
  import opened Recorder
  import opened Channels

  const StillRunningToast: string := "请先停止下载任务"
  const DeletedToast: string := "任务已删除"

  /** Which of the two views the screen shows. */
  datatype ListView = ListView(placeholderVisible: bool, listVisible: bool)

  /** `updateTaskList`: the placeholder when there are no tasks, the list otherwise. */
  function ShowTasks(tasks: seq<DownloadTask>): (v: ListView)
    ensures v.placeholderVisible <==> |tasks| == 0
    ensures v.listVisible != v.placeholderVisible
  {
    if |tasks| == 0 then ListView(true, false) else ListView(false, true)
  }

  /** The placeholder shows exactly when no id finds a task. */
  lemma PlaceholderMeansNothingToFind(tasks: seq<DownloadTask>)
    ensures ShowTasks(tasks).placeholderVisible <==> forall id :: FindTask(tasks, id).None?
  {
    if |tasks| > 0 {
      assert FindTask(tasks, tasks[0].id).Some?;
    }
  }

  /** The command the stop button sends to the service. */
  function StopRequest(taskId: string): (i: Intent)
    ensures i.action == Some(StopAction) && i.taskId == Some(taskId)
  {
    Intent(Some(StopAction), Some(taskId))
  }

  /** The stop button stops exactly that task in the service, and the service stays sticky. */
  lemma StopButtonStopsTask(s: Service, taskId: string, stored: seq<DownloadTask>)
    ensures Dispatch(s, StopRequest(taskId), stored) == (Stop(s, taskId), Sticky)
  {
  }

  /** The outcome of a delete click: refused with a message, or the removal of the id. */
  datatype DeleteDecision = Refused(toast: string) | Removed(taskId: string, toast: string)

  /** `deleteTask(id)`: refused when the first stored task with the id is still
      downloading; otherwise (an unknown id included) the id is removed. */
  function DeleteTask(stored: seq<DownloadTask>, taskId: string): (d: DeleteDecision)
    ensures d.Refused? <==> FindTask(stored, taskId).Some? && FindTask(stored, taskId).value.status == Downloading
    ensures d.Refused? ==> d.toast == StillRunningToast
    ensures d.Removed? ==> d.taskId == taskId && d.toast == DeletedToast
  {
    match FindTask(stored, taskId)
    case Some(t) =>
      if t.status == Downloading then Refused(StillRunningToast) else Removed(taskId, DeletedToast)
    case None => Removed(taskId, DeletedToast)
  }

  /** The guard agrees with the row: deletion of a listed task goes through
      exactly when its row shows the delete button. */
  lemma DeleteGuardMatchesRow(stored: seq<DownloadTask>, i: nat)
    requires i < |stored|
    requires forall j :: 0 <= j < i ==> stored[j].id != stored[i].id
    ensures DeleteTask(stored, stored[i].id).Removed? <==> BindTaskRow(stored[i]).deleteVisible
  {
    var t := FindTask(stored, stored[i].id);
    assert t.Some?;
    var k :| 0 <= k < |stored| && stored[k] == t.value && t.value.id == stored[i].id
             && forall j :: 0 <= j < k ==> stored[j].id != stored[i].id;
    assert k == i;
  }

  /** A task that is not stored passes the guard. */
  lemma UnknownTaskPassesGuard(stored: seq<DownloadTask>, taskId: string)
    requires forall j :: 0 <= j < |stored| ==> stored[j].id != taskId
    ensures DeleteTask(stored, taskId) == Removed(taskId, DeletedToast)
  {
  }

  /** Only a downloading task is ever refused, so whatever is refused can be
      stopped first: its row shows the stop button. */
  lemma RefusedTaskCanBeStopped(stored: seq<DownloadTask>, taskId: string)
    requires DeleteTask(stored, taskId).Refused?
    ensures BindTaskRow(FindTask(stored, taskId).value).stopVisible
  {
  }

  /** A task the service has just created, once stored, starts from a start
      command for its id: the service launches it, keeps it active and stays
      sticky. Its row offers stopping and not deleting, and a delete is refused. */
  lemma CreatedTaskLifecycle(
    downloadPath: Option<string>,
    resolveTree: string -> Option<string>,
    createFile: (string, string, string) -> Option<string>,
    channel: Channel, title: string, timestamp: string, newId: string, now: Instant,
    s: Service, stored: seq<DownloadTask>)
    requires CreateDownloadTask(downloadPath, resolveTree, createFile, channel, title, timestamp, newId, now).Some?
    requires FindTask(stored, newId) == CreateDownloadTask(downloadPath, resolveTree, createFile, channel, title, timestamp, newId, now)
    requires Valid(s) && newId !in s.active
    ensures var t := CreateDownloadTask(downloadPath, resolveTree, createFile, channel, title, timestamp, newId, now).value;
            var res := Dispatch(s, Intent(Some(StartAction), Some(newId)), stored);
            && res.1 == Sticky && Valid(res.0)
            && newId in res.0.active && res.0.launched == s.launched + [t]
    ensures var t := CreateDownloadTask(downloadPath, resolveTree, createFile, channel, title, timestamp, newId, now).value;
            && BindTaskRow(t).stopVisible && !BindTaskRow(t).deleteVisible
            && DeleteTask(stored, newId) == Refused(StillRunningToast)
  {
  }
}
