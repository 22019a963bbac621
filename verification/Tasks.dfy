/** Recording tasks: the four-valued status and the task record shared by the
    local recorder, the remote gateway and the task screens. */
module Tasks {
  import opened Optional

  /** The lifecycle status of a recording. */
  datatype DownloadStatus = Downloading | Completed | Cancelled | Error

  /** A point in time (`java.util.Date`), as milliseconds since the epoch. */
  datatype Instant = Instant(millis: int)

  /** A recording. `id`, `channelTitle`, `streamUrl`, `outputPath` and
      `startTime` are fixed at creation; `endTime`, `status` and
      `errorMessage` are the fields the application may reassign. */
  datatype DownloadTask = DownloadTask(
    id: string,
    channelTitle: string,
    streamUrl: string,
    outputPath: string,
    startTime: Instant,
    endTime: Option<Instant>,
    status: DownloadStatus,
    errorMessage: Option<string>)
  {
    /** Reassigns the three mutable fields; the identity fields cannot change. */
    function WithState(end: Option<Instant>, st: DownloadStatus, message: Option<string>): (t: DownloadTask)
      ensures SameRecording(this, t)
      ensures t.endTime == end && t.status == st && t.errorMessage == message
    {
      this.(endTime := end, status := st, errorMessage := message)
    }
  }

  /** Two task values describe the same recording: the immutable fields agree. */
  predicate SameRecording(a: DownloadTask, b: DownloadTask) {
    && a.id == b.id
    && a.channelTitle == b.channelTitle
    && a.streamUrl == b.streamUrl
    && a.outputPath == b.outputPath
    && a.startTime == b.startTime
  }

  /** The text shown or reported when an error or reply carries no message. */
  const UnknownError: string := "未知错误"

  /** Every status, each once. */
  const AllStatuses: seq<DownloadStatus> := [Downloading, Completed, Cancelled, Error]

  /** The status type has exactly the four listed values. */
  lemma StatusIsFourValued(s: DownloadStatus)
    ensures s in AllStatuses
    ensures |AllStatuses| == 4
    ensures forall i, j :: 0 <= i < j < |AllStatuses| ==> AllStatuses[i] != AllStatuses[j]
  {
  }

  /** A task built from the four required values, relying on every default:
      it starts now, is downloading, and has neither end time nor error. */
  function NewTask(id: string, channelTitle: string, streamUrl: string, outputPath: string, now: Instant): (t: DownloadTask)
    ensures t.id == id && t.channelTitle == channelTitle
    ensures t.streamUrl == streamUrl && t.outputPath == outputPath
    ensures t.startTime == now
    ensures t.status == Downloading && t.endTime == None && t.errorMessage == None
  {
    DownloadTask(id, channelTitle, streamUrl, outputPath, now, None, Downloading, None)
  }

  /** Kotlin's `tasks.find { it.id == id }`: the first task with that id. */
  function FindTask(tasks: seq<DownloadTask>, id: string): (r: Option<DownloadTask>)
    ensures r.None? <==> forall i :: 0 <= i < |tasks| ==> tasks[i].id != id
    ensures r.Some? ==> exists i :: 0 <= i < |tasks| && tasks[i] == r.value && r.value.id == id
                                    && forall j :: 0 <= j < i ==> tasks[j].id != id
  {
    if |tasks| == 0 then None
    else if tasks[0].id == id then Some(tasks[0])
    else
      var r := FindTask(tasks[1..], id);
      assert forall j :: 1 <= j < |tasks| ==> tasks[j] == tasks[1..][j - 1];
      r
  }
}
