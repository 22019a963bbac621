/** The local recording service: the set of active task ids (kept in insertion
    order, as the service's map keeps them), whether the service holds the
    foreground, and the log of status writes it asks the store to make. The
    store's own reaction to a status write is not part of this model, so each
    write is only appended to the log. Each recording runs asynchronously; its
    completion is a separate step (`Complete`) that may arrive at any time. */
module Recorder {
  import opened Optional
  import opened Text
  import opened Channels
  import opened Tasks

  /** One call of the store's status update. */
  datatype StatusWrite = StatusWrite(taskId: string, status: DownloadStatus, message: Option<string>)

  /** The service's state. `launched` lists the tasks whose recorder job was started. */
  datatype Service = Service(
    active: seq<string>,
    inForeground: bool,
    writes: seq<StatusWrite>,
    launched: seq<DownloadTask>)

  /** How a recorder job ended: the transcoder's return code, or an exception and its message. */
  datatype Outcome = Finished(returnCode: int) | Threw(message: Option<string>)

  const SuccessCode: int := 0
  const CancelCode: int := 255

  /** The service as created: nothing active, nothing written. */
  const Created: Service := Service([], false, [], [])

  predicate Distinct(ids: seq<string>) {
    forall i, j :: 0 <= i < j < |ids| ==> ids[i] != ids[j]
  }

  /** The states the service can reach: each id active at most once, and the
      foreground held exactly while something is active. */
  predicate Valid(s: Service) {
    Distinct(s.active) && (s.inForeground <==> |s.active| > 0)
  }

  /** `activeDownloads.remove(id)`. */
  function Without(ids: seq<string>, id: string): (r: seq<string>)
    ensures id !in r
    ensures forall x :: x in r <==> x in ids && x != id
    ensures Distinct(ids) ==> Distinct(r)
    ensures id !in ids ==> r == ids
    ensures |r| <= |ids|
  {
    if |ids| == 0 then []
    else if ids[0] == id then Without(ids[1..], id)
    else
      var rest := Without(ids[1..], id);
      assert forall i :: 1 <= i < |ids| ==> ids[i] == ids[1..][i - 1];
      DistinctTail(ids);
      [ids[0]] + rest
  }

  /** The tail of distinct ids is distinct and does not repeat the head. */
  lemma DistinctTail(ids: seq<string>)
    requires |ids| > 0
    ensures Distinct(ids) ==> Distinct(ids[1..]) && ids[0] !in ids[1..]
  {
    if Distinct(ids) {
      forall i, j | 0 <= i < j < |ids[1..]| ensures ids[1..][i] != ids[1..][j] {
        assert ids[1..][i] == ids[i + 1] && ids[1..][j] == ids[j + 1];
      }
      forall k | 0 <= k < |ids[1..]| ensures ids[1..][k] != ids[0] {
        assert ids[1..][k] == ids[k + 1];
      }
    }
  }

  // ---------------------------------------------------------------------
  // The recorder command
  // ---------------------------------------------------------------------

  datatype StreamKind = Hls | Rtmp | Flv | OtherStream

  /** The branch the command builder takes for a stream address (exact-case tests). */
  function KindOf(streamUrl: string): (k: StreamKind)
    ensures k == Hls <==> Occurs(streamUrl, ".m3u8", false)
    ensures k == Rtmp <==> !Occurs(streamUrl, ".m3u8", false) && StartsWith(streamUrl, "rtmp://")
    ensures k == Flv <==> !Occurs(streamUrl, ".m3u8", false) && !StartsWith(streamUrl, "rtmp://") && Occurs(streamUrl, ".flv", false)
  {
    if Contains(streamUrl, ".m3u8", false) then Hls
    else if StartsWith(streamUrl, "rtmp://") then Rtmp
    else if Contains(streamUrl, ".flv", false) then Flv
    else OtherStream
  }

  /** The command of one branch. Every branch remuxes with `-c copy`. */
  function CommandFor(kind: StreamKind, streamUrl: string, output: string): (cmd: string)
    ensures cmd == "-i " + streamUrl + " -c copy " + output
  {
    match kind
    case Hls => "-i " + streamUrl + " -c copy " + output
    case Rtmp => "-i " + streamUrl + " -c copy " + output
    case Flv => "-i " + streamUrl + " -c copy " + output
    case OtherStream => "-i " + streamUrl + " -c copy " + output
  }

  /** The transcoder command for a stream and the output location's SAF parameter. */
  function RecorderCommand(streamUrl: string, output: string): (cmd: string)
    ensures forall kind :: cmd == CommandFor(kind, streamUrl, output)
  {
    CommandFor(KindOf(streamUrl), streamUrl, output)
  }

  /** Every branch builds the same command: read the stream, copy it into the output. */
  lemma CommandIsUniform(kind: StreamKind, streamUrl: string, output: string)
    ensures CommandFor(kind, streamUrl, output) == RecorderCommand(streamUrl, output)
    ensures RecorderCommand(streamUrl, output) == "-i " + streamUrl + " -c copy " + output
  {
  }

  /** The command names the stream right after "-i " and ends with the output. */
  lemma CommandMentionsInputAndOutput(streamUrl: string, output: string)
    ensures var c := RecorderCommand(streamUrl, output);
            StartsWith(c, "-i " + streamUrl) && c[|c| - |output|..] == output
  {
    var c := RecorderCommand(streamUrl, output);
    assert c == ("-i " + streamUrl) + (" -c copy " + output);
    assert c == ("-i " + streamUrl + " -c copy ") + output;
  }

  // ---------------------------------------------------------------------
  // Outcomes
  // ---------------------------------------------------------------------

  const ExitPrefix: string := "FFmpeg process exited with rc="

  /** The status write for a finished job: success completes, cancellation
      cancels, any other return code or an exception is an error. */
  function WriteFor(id: string, outcome: Outcome): (w: StatusWrite)
    ensures w.taskId == id
    ensures w.status == Completed <==> outcome.Finished? && outcome.returnCode == SuccessCode
    ensures w.status == Cancelled <==> outcome.Finished? && outcome.returnCode == CancelCode
    ensures w.status == Error <==> outcome.Threw? || outcome.returnCode !in {SuccessCode, CancelCode}
    ensures w.status != Downloading
    ensures outcome.Threw? ==> w.message == outcome.message
    ensures w.status != Error ==> w.message.None?
  {
    match outcome
    case Finished(rc) =>
      if rc == SuccessCode then StatusWrite(id, Completed, None)
      else if rc == CancelCode then StatusWrite(id, Cancelled, None)
      else StatusWrite(id, Error, Some(ExitPrefix + IntToString(rc)))
    case Threw(m) => StatusWrite(id, Error, m)
  }

  /** The error message of a failed run names its return code, which can be read back. */
  lemma ReturnCodeIsReported(id: string, rc: int)
    requires rc != SuccessCode && rc != CancelCode
    ensures var w := WriteFor(id, Finished(rc));
            w.message.Some? && StartsWith(w.message.value, ExitPrefix)
            && ParseInt(w.message.value[|ExitPrefix|..]) == Some(rc)
  {
    var m := ExitPrefix + IntToString(rc);
    assert m[..|ExitPrefix|] == ExitPrefix;
    assert m[|ExitPrefix|..] == IntToString(rc);
    IntToStringRoundTrip(rc);
  }

  // ---------------------------------------------------------------------
  // Transitions
  // ---------------------------------------------------------------------

  /** `startDownload(task)`: a task whose id is already active is ignored;
      otherwise its id becomes active and its recorder job is launched. The
      foreground is taken when nothing was active. */
  function Start(s: Service, task: DownloadTask): (r: Service)
    ensures task.id in s.active ==> r == s
    ensures task.id !in s.active ==> r.active == s.active + [task.id] && r.launched == s.launched + [task]
    ensures task.id in r.active
    ensures r.writes == s.writes
    ensures Valid(s) ==> Valid(r)
  {
    var fg := if |s.active| == 0 then true else s.inForeground;
    if task.id in s.active then s
    else s.(active := s.active + [task.id], inForeground := fg, launched := s.launched + [task])
  }

  /** A job's completion handler: writes the outcome's status (whether or not
      the id is still active), removes the id, and gives up the foreground
      once nothing is active. */
  function Complete(s: Service, id: string, outcome: Outcome): (r: Service)
    ensures r.writes == s.writes + [WriteFor(id, outcome)]
    ensures r.active == Without(s.active, id) && id !in r.active
    ensures |r.active| == 0 ==> !r.inForeground
    ensures r.launched == s.launched
    ensures Valid(s) ==> Valid(r)
  {
    var rest := Without(s.active, id);
    s.(writes := s.writes + [WriteFor(id, outcome)],
       active := rest,
       inForeground := if |rest| == 0 then false else s.inForeground)
  }

  /** `stopDownload(id)`: an active id is removed and marked cancelled; an
      inactive one changes nothing and writes nothing. */
  function Stop(s: Service, id: string): (r: Service)
    ensures id !in s.active ==> r == s
    ensures id in s.active ==> r.writes == s.writes + [StatusWrite(id, Cancelled, None)]
    ensures r.active == Without(s.active, id) && id !in r.active
    ensures id in s.active && |r.active| == 0 ==> !r.inForeground
    ensures r.launched == s.launched
    ensures Valid(s) ==> Valid(r)
  {
    if id !in s.active then s
    else
      var rest := Without(s.active, id);
      s.(writes := s.writes + [StatusWrite(id, Cancelled, None)],
         active := rest,
         inForeground := if |rest| == 0 then false else s.inForeground)
  }

  /** The cancellation writes for a list of ids, in order. */
  function CancelWrites(ids: seq<string>): (ws: seq<StatusWrite>)
    ensures |ws| == |ids|
    ensures forall i :: 0 <= i < |ids| ==> ws[i] == StatusWrite(ids[i], Cancelled, None)
  {
    if |ids| == 0 then [] else [StatusWrite(ids[0], Cancelled, None)] + CancelWrites(ids[1..])
  }

  lemma CancelWritesAppend(ids: seq<string>, id: string)
    ensures CancelWrites(ids + [id]) == CancelWrites(ids) + [StatusWrite(id, Cancelled, None)]
  {
  }

  /** Stopping the first of distinct active ids drops exactly that id and writes its cancellation. */
  lemma StopFirst(s: Service)
    requires |s.active| > 0 && Distinct(s.active)
    ensures Stop(s, s.active[0]) == s.(active := s.active[1..],
                                      writes := s.writes + [StatusWrite(s.active[0], Cancelled, None)],
                                      inForeground := if |s.active| == 1 then false else s.inForeground)
  {
    DistinctTail(s.active);
  }

  /** Every suffix of distinct ids is distinct. */
  lemma DistinctSuffix(ids: seq<string>, i: nat)
    requires Distinct(ids) && i <= |ids|
    ensures Distinct(ids[i..])
  {
    forall a, b | 0 <= a < b < |ids| - i ensures ids[i..][a] != ids[i..][b] {
      assert ids[i..][a] == ids[i + a] && ids[i..][b] == ids[i + b];
    }
  }

  /** `onDestroy`: stops every active id in turn. Afterwards nothing is active,
      each previously active id got exactly one cancellation write, in order,
      and the foreground is released if anything had been active. */
  method Destroy(s: Service) returns (r: Service)
    requires Distinct(s.active)
    ensures r.active == []
    ensures r.writes == s.writes + CancelWrites(s.active)
    ensures |s.active| > 0 ==> !r.inForeground
    ensures |s.active| == 0 ==> r == s
    ensures r.launched == s.launched
  {
    var ids := s.active;
    r := s;
    var i := 0;
    while i < |ids|
      invariant 0 <= i <= |ids|
      invariant r.active == ids[i..]
      invariant r.writes == s.writes + CancelWrites(ids[..i])
      invariant r.launched == s.launched
      invariant i < |ids| ==> r.inForeground == s.inForeground
      invariant i == |ids| && i > 0 ==> !r.inForeground
      invariant i == 0 ==> r == s
    {
      assert r.active[0] == ids[i] && r.active[1..] == ids[i + 1..];
      DistinctSuffix(ids, i);
      StopFirst(r);
      r := Stop(r, ids[i]);
      CancelWritesAppend(ids[..i], ids[i]);
      assert ids[..i + 1] == ids[..i] + [ids[i]];
      i := i + 1;
    }
    assert ids[..i] == ids;
  }

  // ---------------------------------------------------------------------
  // Commands delivered to the service
  // ---------------------------------------------------------------------

  const StartAction: string := "com.example.livestreamplayer.action.START_DOWNLOAD"
  const StopAction: string := "com.example.livestreamplayer.action.STOP_DOWNLOAD"

  /** A start command: its action (absent for a null intent) and its task-id extra. */
  datatype Intent = Intent(action: Option<string>, taskId: Option<string>)

  /** Whether the system should restart the service after it is killed. */
  datatype StartMode = Sticky | NotSticky

  /** `onStartCommand`: a start needs a task id that the store knows; a stop
      needs a task id; anything else is ignored. A missing id or unknown task
      answers not-sticky and changes nothing. */
  function Dispatch(s: Service, intent: Intent, stored: seq<DownloadTask>): (res: (Service, StartMode))
    ensures res.1 == NotSticky ==> res.0 == s
    ensures intent.action == Some(StartAction) && intent.taskId.Some? && FindTask(stored, intent.taskId.value).Some? ==>
              res == (Start(s, FindTask(stored, intent.taskId.value).value), Sticky)
    ensures intent.action == Some(StartAction) && intent.taskId.Some? && FindTask(stored, intent.taskId.value).None? ==>
              res == (s, NotSticky)
    ensures intent.action == Some(StopAction) && intent.taskId.Some? ==> res == (Stop(s, intent.taskId.value), Sticky)
    ensures intent.action != Some(StartAction) && intent.action != Some(StopAction) ==> res == (s, Sticky)
    ensures (intent.action == Some(StartAction) || intent.action == Some(StopAction)) && intent.taskId.None? ==> res == (s, NotSticky)
  {
    if intent.action == Some(StartAction) then
      if intent.taskId.None? then (s, NotSticky)
      else
        match FindTask(stored, intent.taskId.value)
        case None => (s, NotSticky)
        case Some(task) => (Start(s, task), Sticky)
    else if intent.action == Some(StopAction) then
      if intent.taskId.None? then (s, NotSticky)
      else (Stop(s, intent.taskId.value), Sticky)
    else (s, Sticky)
  }

  // ---------------------------------------------------------------------
  // Creating a task
  // ---------------------------------------------------------------------

  const Mp4MimeType: string := "video/mp4"

  /** The recording's file name: the title, the creation timestamp and ".mp4". */
  function RecordingFileName(title: string, timestamp: string): (name: string)
    ensures |name| == |title| + |timestamp| + 5
    ensures name[..|title|] == title && name[|title|] == '_'
    ensures name[|title| + 1..|name| - 4] == timestamp && name[|name| - 4..] == ".mp4"
  {
    var name := title + "_" + timestamp + ".mp4";
    assert name[|title| + 1..|name| - 4] == timestamp;
    name
  }

  /** Two recordings of the same title made at different timestamps get different file names. */
  lemma RecordingFileNamesDiffer(title: string, timestamp: string, other: string)
    requires timestamp != other
    ensures RecordingFileName(title, timestamp) != RecordingFileName(title, other)
  {
  }

  /** `createDownloadTask(channel, title)`. The configured download path, the
      tree lookup, the file creation, the generated id, the formatted timestamp
      and the clock are inputs. Nothing is stored. */
  function CreateDownloadTask(
    downloadPath: Option<string>,
    resolveTree: string -> Option<string>,
    createFile: (string, string, string) -> Option<string>,
    channel: Channel, title: string, timestamp: string, newId: string, now: Instant): (r: Option<DownloadTask>)
    ensures r.None? <==>
              || downloadPath.None?
              || resolveTree(downloadPath.value).None?
              || createFile(resolveTree(downloadPath.value).value, Mp4MimeType, RecordingFileName(title, timestamp)).None?
    ensures r.Some? ==>
              && r.value.id == newId
              && r.value.channelTitle == title
              && r.value.streamUrl == channel.address
              && r.value.outputPath == createFile(resolveTree(downloadPath.value).value, Mp4MimeType, RecordingFileName(title, timestamp)).value
              && r.value.startTime == now
              && r.value.status == Downloading && r.value.endTime.None? && r.value.errorMessage.None?
  {
    match downloadPath
    case None => None
    case Some(path) =>
      match resolveTree(path)
      case None => None
      case Some(dir) =>
        match createFile(dir, Mp4MimeType, RecordingFileName(title, timestamp))
        case None => None
        case Some(uri) => Some(NewTask(newId, title, channel.address, uri, now))
  }

  // ---------------------------------------------------------------------
  // Properties across transitions
  // ---------------------------------------------------------------------

  lemma CreatedIsValid()
    ensures Valid(Created)
  {
  }

  /** Starting an id that is already active changes nothing at all; repeating a start is harmless. */
  lemma StartIsIdempotent(s: Service, task: DownloadTask)
    ensures Start(Start(s, task), task) == Start(s, task)
  {
  }

  /** Stopping an id twice writes one cancellation only. */
  lemma StopIsIdempotent(s: Service, id: string)
    ensures Stop(Stop(s, id), id) == Stop(s, id)
  {
  }

  /** Start then stop of a new id: it is no longer active and it was cancelled;
      the other active ids are untouched. */
  lemma StartThenStop(s: Service, task: DownloadTask)
    requires Valid(s) && task.id !in s.active
    ensures var r := Stop(Start(s, task), task.id);
            r.active == s.active && r.writes == s.writes + [StatusWrite(task.id, Cancelled, None)]
            && Valid(r)
  {
    assert Without(s.active + [task.id], task.id) == s.active by {
      WithoutAppend(s.active, task.id);
    }
  }

  /** Whatever intent arrives, the service stays in a reachable state, keeps
      every status write and launch it made, and launches only stored tasks. */
  lemma DispatchKeepsValid(s: Service, intent: Intent, stored: seq<DownloadTask>)
    requires Valid(s)
    ensures var r := Dispatch(s, intent, stored).0;
            Valid(r)
            && s.writes <= r.writes && s.launched <= r.launched
            && forall i :: |s.launched| <= i < |r.launched| ==> r.launched[i] in stored
  {
    var r := Dispatch(s, intent, stored).0;
    if intent.action == Some(StartAction) && intent.taskId.Some? {
      var found := FindTask(stored, intent.taskId.value);
      if found.Some? {
        assert found.value in stored;
        assert r == Start(s, found.value);
      }
    }
  }

  lemma {:induction false} WithoutAppend(ids: seq<string>, id: string)
    requires id !in ids
    ensures Without(ids + [id], id) == ids
  {
    if |ids| > 0 {
      assert (ids + [id])[1..] == ids[1..] + [id];
      WithoutAppend(ids[1..], id);
      assert ids == [ids[0]] + ids[1..];
    }
  }
}
