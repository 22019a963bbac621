/** One row of the task list: the status label and which of the stop button,
    end time, error line and delete button are shown, chosen by the task's
    status. */
module TaskRows {
  import opened Optional
  import opened Tasks

  const DownloadingLabel: string := "下载中"
  const CompletedLabel: string := "已完成"
  const CancelledLabel: string := "已取消"
  const ErrorLabel: string := "下载失败"
  const ErrorPrefix: string := "错误: "

  /** What a bound row shows. `errorText` is `None` when the error line is hidden. */
  datatype TaskRow = TaskRow(
    title: string,
    statusLabel: string,
    stopVisible: bool,
    endTimeVisible: bool,
    errorText: Option<string>,
    deleteVisible: bool)

  /** The label shown for each status. */
  function StatusLabel(st: DownloadStatus): (text: string)
    ensures StatusOfLabel(text) == Some(st)
  {
    match st
    case Downloading => DownloadingLabel
    case Completed => CompletedLabel
    case Cancelled => CancelledLabel
    case Error => ErrorLabel
  }

  /** Reads a label back to its status; any other text names none. */
  function StatusOfLabel(text: string): Option<DownloadStatus> {
    if text == DownloadingLabel then Some(Downloading)
    else if text == CompletedLabel then Some(Completed)
    else if text == CancelledLabel then Some(Cancelled)
    else if text == ErrorLabel then Some(Error)
    else None
  }

  /** Each status has its own label: reading the label back gives the status. */
  lemma LabelsIdentifyStatus(st: DownloadStatus)
    ensures StatusOfLabel(StatusLabel(st)) == Some(st)
  {
  }

  /** The error line for a failed task: the stored message, or a fallback when there is none. */
  function ErrorLine(t: DownloadTask): (line: string)
    ensures t.errorMessage.Some? ==> line == ErrorPrefix + t.errorMessage.value
    ensures t.errorMessage.None? ==> line == ErrorPrefix + UnknownError
  {
    ErrorPrefix + t.errorMessage.GetOr(UnknownError)
  }

  /** `onBindViewHolder` for one task. */
  function BindTaskRow(t: DownloadTask): (r: TaskRow)
    ensures r.title == t.channelTitle
    ensures StatusOfLabel(r.statusLabel) == Some(t.status)
    ensures r.stopVisible <==> t.status == Downloading
    ensures r.deleteVisible <==> !r.stopVisible
    ensures r.endTimeVisible <==> !r.stopVisible
    ensures r.errorText.Some? <==> t.status == Error
    ensures r.errorText.Some? ==> r.errorText.value == ErrorLine(t)
  {
    var running := t.status == Downloading;
    TaskRow(
      t.channelTitle,
      StatusLabel(t.status),
      running,
      !running,
      if t.status == Error then Some(ErrorLine(t)) else None,
      !running)
  }

  /** A row offers exactly one of stopping and deleting. */
  lemma StopOrDeleteNeverBoth(t: DownloadTask)
    ensures BindTaskRow(t).stopVisible != BindTaskRow(t).deleteVisible
  {
  }

  /** The row depends only on the title, status and error message, so a status
      update redraws the row exactly as a task created with the new state would. */
  lemma RowFollowsState(t: DownloadTask, end: Option<Instant>, st: DownloadStatus, message: Option<string>)
    ensures BindTaskRow(t.WithState(end, st, message)).statusLabel == StatusLabel(st)
    ensures BindTaskRow(t.WithState(end, st, message)).title == BindTaskRow(t).title
    ensures BindTaskRow(t.WithState(end, st, message)).stopVisible <==> st == Downloading
  {
  }
}
