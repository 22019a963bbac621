# LiveStreamPlayer recording core in Dafny

This project models the core of LiveStreamPlayer, an Android app that browses
live-stream catalogues, keeps favourites and a block list, and records live
streams to files. It covers:

- **Channels.** Channel liveness: an address is live when it mentions `.m3u8` or `.flv` in any letter case.
- **Tasks.** The recording task record and its four-valued status.
- **Preferences.** The preference store's three keyed collections: favourite platforms, favourite channels and blocked channels.
- **RemoteApi.** The client of the remote recording service:
  - the cancel request body;
  - decoding of task items with field aliases;
  - classification of HTTP replies;
  - short-circuiting when no server is configured;
  - the stream URL of a finished file.
- **Recorder.** The local recording service:
  - the set of active recordings and whether the service holds the foreground;
  - start, stop, completion and destroy, and the dispatch of start commands;
  - the transcoder command, the mapping of return codes to statuses, and task creation.
- **TaskRows**, **TaskScreen** and **LiveChannelRows.** The screens' decisions:
  - the status table of a task row;
  - the delete guard of the task screen;
  - the live/recorded tag and download button of a favourite-channel row.

Effects are modelled as data:
- A status update the service asks of the store is appended to a log of `StatusWrite`s.
- An HTTP exchange is an input: either an I/O failure or a response.
- The following are parameters: JSON parsing, number coercion, date parsing, the clock, the configured base URL, the download folder lookup, file creation and id generation.

Kotlin library behaviour used by the core is written out in `Text`:
- `contains` (exact or ignoring case), `startsWith` and `equalsIgnoreCase`;
- `trim` and `isBlank`, with Kotlin's whitespace set;
- one-character `replace`;
- decimal rendering of integers.

## Model

| member | source | states |
|---|---|---|
| Channels.IsLive | app/src/main/java/com/example/livestreamplayer/Channel.kt:18-22 | a channel is live exactly when its address contains `.m3u8` or `.flv` at some position, comparing letters without case |
| Channels.IsLiveMeansMarkerOccurs | app/src/main/java/com/example/livestreamplayer/Channel.kt:18-22 | a channel is live exactly when `.m3u8` or `.flv` occurs somewhere in its address, ignoring case |
| Channels.IsLiveIgnoresCase | app/src/main/java/com/example/livestreamplayer/Channel.kt:18-22 | two addresses that differ only in letter case are both live or both recorded |
| Channels.MarkerAnywhereIsLive | app/src/main/java/com/example/livestreamplayer/Channel.kt:18-22 | a marker anywhere in the address, not only at its end, makes the channel live |
| Channels.UpperCaseMarkersAreLive | app/src/main/java/com/example/livestreamplayer/Channel.kt:19-22 | upper-case `.M3U8` and `.FLV` count as markers |
| Channels.DocumentedHlsExampleIsLive | app/src/main/java/com/example/livestreamplayer/Channel.kt:14 | the documented `.m3u8` address is live |
| Channels.DocumentedFlvExampleIsLive | app/src/main/java/com/example/livestreamplayer/Channel.kt:15 | the documented `.flv` address is live |
| Channels.TwoDotAddressIsRecorded | app/src/main/java/com/example/livestreamplayer/Channel.kt:12 | an address with exactly two dots, neither followed by m or f in any case, such as the rtmp:// example, is a recording |
| Channels.DotsWithoutMarkerLetterAreRecorded | app/src/main/java/com/example/livestreamplayer/Channel.kt:18-22 | an address with any number of dots, none followed by m or f in any case, is a recording |
| Channels.DocumentedRtmpExampleIsRecorded | app/src/main/java/com/example/livestreamplayer/Channel.kt:12-16 | the documented rtmp:// address is a recording |
| Text.Contains | app/src/main/java/com/example/livestreamplayer/Channel.kt:19-22 | the search answers true exactly when some position of the string matches the needle, character by character, with or without case folding |
| Text.ContainsIgnoringCaseIsCaseBlind | app/src/main/java/com/example/livestreamplayer/Channel.kt:19-22 | an ignore-case search gives the same answer on strings that differ only in case |
| Text.Trim | app/src/main/java/com/example/livestreamplayer/RemoteDownloadApi.kt:142 | the result is the input minus leading and trailing whitespace, and it neither starts nor ends with whitespace |
| Text.TrimIdempotent | app/src/main/java/com/example/livestreamplayer/RemoteDownloadApi.kt:142 | trimming a trimmed string changes nothing |
| Text.RemoveChar | app/src/main/java/com/example/livestreamplayer/RemoteDownloadApi.kt:142 | the result has no copy of the removed character and every other character exactly as many times as the input; its length drops by the number of removed copies |
| Text.RemoveCharDistributes | app/src/main/java/com/example/livestreamplayer/RemoteDownloadApi.kt:142 | removal works piece by piece, so the kept characters stay in their order |
| Text.RemoveAbsentChar | app/src/main/java/com/example/livestreamplayer/RemoteDownloadApi.kt:142 | a string without the character is returned unchanged |
| Text.IntToStringRoundTrip | app/src/main/java/com/example/livestreamplayer/DownloadService.kt:154 | reading back the decimal rendering of an integer gives the integer |
| Text.IntToStringInjective | app/src/main/java/com/example/livestreamplayer/RemoteDownloadApi.kt:105 | different integers render differently |
| Tasks.StatusIsFourValued | app/src/main/java/com/example/livestreamplayer/DownloadTask.kt:5-7 | the status is one of exactly four distinct values |
| Tasks.NewTask | app/src/main/java/com/example/livestreamplayer/DownloadTask.kt:9-18 | a task created from its four required fields starts now, is downloading, and has no end time or error |
| Tasks.DownloadTask.WithState | app/src/main/java/com/example/livestreamplayer/DownloadTask.kt:15-17 | reassigning end time, status and error keeps the immutable fields of the recording |
| Tasks.FindTask | app/src/main/java/com/example/livestreamplayer/DownloadService.kt:53 | the result is absent exactly when no task has the id; otherwise it is the first task with that id |
| KeyedList.Any | app/src/main/java/com/example/livestreamplayer/PreferenceManager.kt:38 | true exactly when some element carries the key |
| KeyedList.Insert | app/src/main/java/com/example/livestreamplayer/PreferenceManager.kt:15-22 | after insertion the key is present, the key set grows by exactly that key, and the old list is a prefix of the new one |
| KeyedList.RemoveAll | app/src/main/java/com/example/livestreamplayer/PreferenceManager.kt:24-29 | the key is gone, every other element survives, and nothing new appears |
| KeyedList.InsertPresentKeyIsNoOp | app/src/main/java/com/example/livestreamplayer/PreferenceManager.kt:17 | an element whose key is present leaves the list unchanged, whatever its other fields |
| KeyedList.InsertNewKeyAppends | app/src/main/java/com/example/livestreamplayer/PreferenceManager.kt:17-18 | an element with a new key is appended at the end |
| KeyedList.InsertIdempotent | app/src/main/java/com/example/livestreamplayer/PreferenceManager.kt:15-22 | inserting twice is inserting once |
| KeyedList.RemoveAbsentIsNoOp | app/src/main/java/com/example/livestreamplayer/PreferenceManager.kt:26 | removing an absent key leaves the list unchanged |
| KeyedList.RemoveAllDistributes | app/src/main/java/com/example/livestreamplayer/PreferenceManager.kt:26 | removal works element by element, so the survivors keep their order |
| KeyedList.RemoveUndoesInsert | app/src/main/java/com/example/livestreamplayer/PreferenceManager.kt:15-29 | removing the key just inserted gives what removing it from the original list gives |
| Preferences.SaveFavoritePlatform | app/src/main/java/com/example/livestreamplayer/PreferenceManager.kt:15-22 | an address already stored leaves the store unchanged; a new platform is appended at the end; the favourite set grows by exactly that address; the other collections are untouched |
| Preferences.RemoveFavoritePlatform | app/src/main/java/com/example/livestreamplayer/PreferenceManager.kt:24-29 | afterwards the address is not a favourite; the remaining entries are exactly the stored platforms with another address, unaltered; removing an absent address keeps the list; the other collections are untouched |
| Preferences.SaveFavoriteChannel | app/src/main/java/com/example/livestreamplayer/PreferenceManager.kt:42-50 | an address already favourited leaves the store unchanged; a new one is appended at the end with the platform it was found under; the favourite set grows by exactly that address; the other collections are untouched |
| Preferences.RemoveFavoriteChannel | app/src/main/java/com/example/livestreamplayer/PreferenceManager.kt:52-57 | afterwards the address is not a favourite; the remaining entries are exactly the stored entries with another address, unaltered; removing an absent address keeps the list; the other collections are untouched |
| Preferences.AddBlockedChannel | app/src/main/java/com/example/livestreamplayer/PreferenceManager.kt:70-77 | an address already blocked leaves the store unchanged; a new channel is appended at the end; the blocked set grows by exactly that address; the other collections are untouched |
| Preferences.RemoveBlockedChannel | app/src/main/java/com/example/livestreamplayer/PreferenceManager.kt:79-84 | afterwards the address is not blocked; the remaining entries are exactly the stored channels with another address, unaltered; removing an absent address keeps the list; the other collections are untouched |
| Preferences.FreshStoreIsEmpty | app/src/main/java/com/example/livestreamplayer/PreferenceManager.kt:31-35 | a key never written reads as an empty list, so nothing is a favourite or blocked |
| Preferences.SavingIsIdempotent | app/src/main/java/com/example/livestreamplayer/PreferenceManager.kt:15-22 | saving, favouriting or blocking the same item twice is the same as doing it once |
| Preferences.SavePlatformAppendsOnlyNewAddresses | app/src/main/java/com/example/livestreamplayer/PreferenceManager.kt:17-21 | a new address is appended at the end; an address already stored, even under another title, leaves the store unchanged |
| Preferences.RemovePlatformKeepsOrder | app/src/main/java/com/example/livestreamplayer/PreferenceManager.kt:26 | removal from a list made of two parts removes from each part, so order is kept |
| Preferences.SaveChannelAppendsOnlyNewAddresses | app/src/main/java/com/example/livestreamplayer/PreferenceManager.kt:44-49 | a channel with a new address is appended at the end with its platform; an address already favourited leaves the store unchanged |
| Preferences.BlockAppendsOnlyNewAddresses | app/src/main/java/com/example/livestreamplayer/PreferenceManager.kt:72-76 | a channel with a new address is appended to the block list; an address already blocked leaves the store unchanged |
| Preferences.RemoveChannelKeepsOrder | app/src/main/java/com/example/livestreamplayer/PreferenceManager.kt:54 | removing a favourite channel from a list made of two parts removes from each part, so order is kept |
| Preferences.UnblockKeepsOrder | app/src/main/java/com/example/livestreamplayer/PreferenceManager.kt:81 | unblocking from a list made of two parts removes from each part, so order is kept |
| Preferences.FavoriteKeepsFirstPlatform | app/src/main/java/com/example/livestreamplayer/PreferenceManager.kt:42-50 | favouriting a channel whose address is already a favourite, from any platform, writes nothing, so the entry keeps the platform it was first saved under |
| Preferences.RemoveUndoesSave | app/src/main/java/com/example/livestreamplayer/PreferenceManager.kt:15-29 | saving and then removing a platform forgets it and leaves the rest as removal alone would |
| Preferences.GetFavoritePlatforms | app/src/main/java/com/example/livestreamplayer/PreferenceManager.kt:31-35 | a key never written reads as the empty list; otherwise the stored list |
| Preferences.IsPlatformFavorite | app/src/main/java/com/example/livestreamplayer/PreferenceManager.kt:37-39 | true exactly when some stored platform has the same address |
| Preferences.GetFavoriteChannels | app/src/main/java/com/example/livestreamplayer/PreferenceManager.kt:59-63 | a key never written reads as the empty list; otherwise the stored list |
| Preferences.IsChannelFavorite | app/src/main/java/com/example/livestreamplayer/PreferenceManager.kt:65-67 | true exactly when some stored favourite is for a channel with the same address |
| Preferences.GetBlockedChannels | app/src/main/java/com/example/livestreamplayer/PreferenceManager.kt:86-90 | a key never written reads as the empty list; otherwise the stored list |
| Preferences.IsChannelBlocked | app/src/main/java/com/example/livestreamplayer/PreferenceManager.kt:92-94 | true exactly when some blocked channel has the same address |
| RemoteApi.OptBoolean | app/src/main/java/com/example/livestreamplayer/RemoteDownloadApi.kt:125 | true when the member reads "true" in any case; false when it reads "false" in any case; otherwise the fallback |
| RemoteApi.OptBooleanIgnoresCase | app/src/main/java/com/example/livestreamplayer/RemoteDownloadApi.kt:125 | a boolean member is read the same whatever the case of its letters |
| RemoteApi.NonEmptyMember | app/src/main/java/com/example/livestreamplayer/RemoteDownloadApi.kt:224-226 | an id is reported only when the member is present and non-empty, and then with its text |
| RemoteApi.OptStringMulti | app/src/main/java/com/example/livestreamplayer/RemoteDownloadApi.kt:204-210 | the result is empty exactly when every alias is empty; otherwise it is the value of the first non-empty alias |
| RemoteApi.AliasPriority | app/src/main/java/com/example/livestreamplayer/RemoteDownloadApi.kt:144-149 | a non-empty preferred spelling wins; otherwise the alternative is used |
| RemoteApi.CleanUrl | app/src/main/java/com/example/livestreamplayer/RemoteDownloadApi.kt:140-142 | the cleaned URL is the raw value with every backtick removed and then exactly its leading and trailing whitespace cut off; it has no backtick and no surrounding whitespace |
| RemoteApi.CleanUrlKeepsCleanUrl | app/src/main/java/com/example/livestreamplayer/RemoteDownloadApi.kt:140-142 | a value with no backtick and no surrounding whitespace comes through unchanged |
| RemoteApi.CleanUrlIdempotent | app/src/main/java/com/example/livestreamplayer/RemoteDownloadApi.kt:140-142 | cleaning a cleaned URL changes nothing |
| RemoteApi.CleanUrlJoinsPieces | app/src/main/java/com/example/livestreamplayer/RemoteDownloadApi.kt:140-142 | a backtick between two pieces is dropped and the pieces are joined, each without its own backticks, before trimming |
| RemoteApi.StatusFromRemote | app/src/main/java/com/example/livestreamplayer/RemoteDownloadApi.kt:165-171 | a known server name maps to the status of that name, and any other string maps to downloading |
| RemoteApi.StatusNamesRoundTrip | app/src/main/java/com/example/livestreamplayer/RemoteDownloadApi.kt:165-171 | every status survives the trip through its server name |
| RemoteApi.StartTimeOf | app/src/main/java/com/example/livestreamplayer/RemoteDownloadApi.kt:151-155 | a given, parseable start time is used; otherwise the current time |
| RemoteApi.EndTimeOf | app/src/main/java/com/example/livestreamplayer/RemoteDownloadApi.kt:156-160 | the end time is absent exactly when it is not given or does not parse |
| RemoteApi.DecodeItem | app/src/main/java/com/example/livestreamplayer/RemoteDownloadApi.kt:137-183 | id, title and status come from their members when present (status through the server-name table), with "", "" and downloading otherwise; the output path, times and error message come from the first non-empty alias; the error message is always present |
| RemoteApi.DecodeItemFields | app/src/main/java/com/example/livestreamplayer/RemoteDownloadApi.kt:140-183 | the stream URL is the "url" member cleaned; file_path, errorMessage, created_at and updated_at win over filePath, error, startTime and endTime when non-empty; with neither spelling the start time is now and the end time absent |
| RemoteApi.DecodeItems | app/src/main/java/com/example/livestreamplayer/RemoteDownloadApi.kt:133-185 | one task per element of "items", each decoded from the element at the same position |
| RemoteApi.DecodePage | app/src/main/java/com/example/livestreamplayer/RemoteDownloadApi.kt:125-185 | ok exactly when "ok" is present and reads "true" in any case; the message is the "message" member or "未知错误"; no "items" gives no tasks, otherwise one task per element in order; total, page and page size are the member's number when present and numeric, otherwise 0 and the requested page and page size |
| RemoteApi.MissingMembersFallBack | app/src/main/java/com/example/livestreamplayer/RemoteDownloadApi.kt:125-130 | a document without the members gives not ok, no items, total 0, and the requested page and page size |
| RemoteApi.TasksFromExchange | app/src/main/java/com/example/livestreamplayer/RemoteDownloadApi.kt:112-195 | a usable JSON reply is decoded as a page; any other outcome is a failure with no items and zero counts; an I/O failure, a wrong content type, unparseable JSON and an HTTP error each report their own message (for an HTTP error, its body or the fallback) |
| RemoteApi.TasksFromExchangeAsWritten | app/src/main/java/com/example/livestreamplayer/RemoteDownloadApi.kt:187-189 | the failure branch as written escapes with an exception exactly when a non-2xx reply has a body; otherwise it agrees with the corrected listing |
| RemoteApi.ErrorPageEscapesListing | app/src/main/java/com/example/livestreamplayer/RemoteDownloadApi.kt:114 | a 404 page with a body escapes the listing as written, while the corrected listing and the cancel/delete reply both report the body |
| RemoteApi.FailuresReportedAlike | app/src/main/java/com/example/livestreamplayer/RemoteDownloadApi.kt:213-214 | for a non-2xx or bodiless reply, the listing and cancel/delete report the same message and are not ok |
| RemoteApi.ParseResponse | app/src/main/java/com/example/livestreamplayer/RemoteDownloadApi.kt:212-230 | ok exactly when the reply is usable JSON whose "ok" is true in any case; for usable JSON the message is the "message" member or "未知错误" and each id is the member's text when present and non-empty, absent otherwise; a wrong content type, unparseable JSON and an HTTP error each report their own message |
| RemoteApi.ApiFromExchange | app/src/main/java/com/example/livestreamplayer/RemoteDownloadApi.kt:60-68 | an I/O failure yields the network-failure message; a reply is classified as by ParseResponse; ok implies a usable JSON reply |
| RemoteApi.CancelBody | app/src/main/java/com/example/livestreamplayer/RemoteDownloadApi.kt:46-48 | the body never holds both keys; it holds the id exactly when the id is not blank, otherwise the title exactly when that is not blank |
| RemoteApi.CancelDownload | app/src/main/java/com/example/livestreamplayer/RemoteDownloadApi.kt:42-70 | without a base URL nothing is sent and the answer is "not configured"; otherwise the body is posted to /cancel and the answer is the reply classified as by ApiFromExchange |
| RemoteApi.DeleteCompletedFile | app/src/main/java/com/example/livestreamplayer/RemoteDownloadApi.kt:72-100 | without a base URL nothing is sent; otherwise the id is posted to /delete and the answer is the reply classified as by ApiFromExchange |
| RemoteApi.ActionsOkExactly | app/src/main/java/com/example/livestreamplayer/RemoteDownloadApi.kt:42-100 | cancel and delete are ok exactly when a base URL is configured and the reply is usable JSON whose "ok" is true in any case; a reported task id is the reply's "taskId" member |
| RemoteApi.TasksUrl | app/src/main/java/com/example/livestreamplayer/RemoteDownloadApi.kt:105 | the URL is the base, "/tasks?status=", the status and "&page=", followed by the page, "&pageSize=" and the page size in decimal |
| RemoteApi.TasksUrlIdentifiesPaging | app/src/main/java/com/example/livestreamplayer/RemoteDownloadApi.kt:105 | for one server and status filter, different page or page-size values give different URLs |
| RemoteApi.GetTasks | app/src/main/java/com/example/livestreamplayer/RemoteDownloadApi.kt:102-110 | the listing with its failure branch corrected: without a base URL nothing is sent and an empty failure is returned; otherwise a GET of /tasks with status, page and page size, whose result is the reply read as by TasksFromExchange |
| RemoteApi.GetTasksAsWritten | app/src/main/java/com/example/livestreamplayer/RemoteDownloadApi.kt:102-197 | the listing as written sends the same request as the corrected one, escapes with an exception exactly when a base URL is set and a non-2xx reply has a body, and otherwise returns what the corrected listing returns |
| RemoteApi.TasksOkExactly | app/src/main/java/com/example/livestreamplayer/RemoteDownloadApi.kt:102-197 | a listing is ok exactly when a base URL is configured and the reply is usable JSON whose "ok" is true |
| RemoteApi.PageHasOneTaskPerItem | app/src/main/java/com/example/livestreamplayer/RemoteDownloadApi.kt:132-186 | a usable page has exactly one task per element of "items", in order |
| RemoteApi.NoBaseUrlShortCircuits | app/src/main/java/com/example/livestreamplayer/RemoteDownloadApi.kt:44 | with no base URL, none of the four entry points sends anything, each fails with empty payloads, and there is no file URL |
| RemoteApi.CompletedFileStreamUrl | app/src/main/java/com/example/livestreamplayer/RemoteDownloadApi.kt:199-202 | the URL is absent exactly when no base URL is configured; otherwise it is the file endpoint with the id |
| RemoteApi.FileStreamUrlIdentifiesTask | app/src/main/java/com/example/livestreamplayer/RemoteDownloadApi.kt:199-202 | different task ids give different file URLs |
| RemoteApi.AlternativeKeysAreUsed | app/src/main/java/com/example/livestreamplayer/RemoteDownloadApi.kt:145-148 | an item spelled with file_path and created_at fills the output path and start time from them |
| Recorder.KindOf | app/src/main/java/com/example/livestreamplayer/DownloadService.kt:118-135 | the branch is HLS exactly when the address contains ".m3u8" (case-sensitive); otherwise RTMP exactly when it starts with "rtmp://"; otherwise FLV exactly when it contains ".flv"; otherwise the fallback branch |
| Recorder.CommandFor | app/src/main/java/com/example/livestreamplayer/DownloadService.kt:118-135 | every branch builds "-i", the stream URL, "-c copy" and the output location |
| Recorder.RecorderCommand | app/src/main/java/com/example/livestreamplayer/DownloadService.kt:118-135 | the command is the same whichever branch the address selects |
| Recorder.CommandIsUniform | app/src/main/java/com/example/livestreamplayer/DownloadService.kt:118-135 | every stream-kind branch builds the same command |
| Recorder.CommandMentionsInputAndOutput | app/src/main/java/com/example/livestreamplayer/DownloadService.kt:118-135 | the command starts with "-i" and the stream URL and ends with the output location |
| Recorder.WriteFor | app/src/main/java/com/example/livestreamplayer/DownloadService.kt:143-171 | return code 0 completes, 255 cancels, and any other code or an exception is an error; the write is never "downloading" and carries a message only for errors |
| Recorder.ReturnCodeIsReported | app/src/main/java/com/example/livestreamplayer/DownloadService.kt:151-155 | the error message for a failed run carries the return code, which can be read back from it |
| Recorder.Start | app/src/main/java/com/example/livestreamplayer/DownloadService.kt:101-184 | starting an active id changes nothing; otherwise the id is appended and the task launched; the service invariant is preserved |
| Recorder.Complete | app/src/main/java/com/example/livestreamplayer/DownloadService.kt:143-179 | the outcome's status is written whether or not the id is still active; the id is removed; the foreground is dropped when nothing is active; the invariant is preserved |
| Recorder.Stop | app/src/main/java/com/example/livestreamplayer/DownloadService.kt:186-205 | stopping an inactive id changes nothing; otherwise the id is removed and marked cancelled; the invariant is preserved |
| Recorder.Without | app/src/main/java/com/example/livestreamplayer/DownloadService.kt:159 | removing an id leaves exactly the other ids, keeps them distinct, and is a no-op for an absent id |
| Recorder.Destroy | app/src/main/java/com/example/livestreamplayer/DownloadService.kt:207-211 | afterwards nothing is active; each previously active id received one cancellation, in order; the foreground is released |
| Recorder.Dispatch | app/src/main/java/com/example/livestreamplayer/DownloadService.kt:49-62 | a start or stop without a task id, or a start for a task that is not stored, is not sticky and changes nothing; a start of a stored task starts it and a stop with an id stops it, both sticky; other actions are sticky and change nothing |
| Recorder.CreateDownloadTask | app/src/main/java/com/example/livestreamplayer/DownloadService.kt:218-239 | no task exactly when the download path, folder or file is missing; otherwise a fresh downloading task for the channel's address and the new file |
| Recorder.RecordingFileName | app/src/main/java/com/example/livestreamplayer/DownloadService.kt:224 | the file name is the title, "_", the timestamp and ".mp4" |
| Recorder.RecordingFileNamesDiffer | app/src/main/java/com/example/livestreamplayer/DownloadService.kt:222-224 | two recordings of the same title made at different timestamps get different file names |
| Recorder.CreatedIsValid | app/src/main/java/com/example/livestreamplayer/DownloadService.kt:36 | the service starts with nothing active and no foreground |
| Recorder.StartIsIdempotent | app/src/main/java/com/example/livestreamplayer/DownloadService.kt:106-109 | a repeated start of the same task is ignored |
| Recorder.StopIsIdempotent | app/src/main/java/com/example/livestreamplayer/DownloadService.kt:186-188 | a second stop of the same id writes nothing more |
| Recorder.StartThenStop | app/src/main/java/com/example/livestreamplayer/DownloadService.kt:101-205 | starting and then stopping a new id leaves the other active ids unchanged and writes exactly one cancellation |
| Recorder.DispatchKeepsValid | app/src/main/java/com/example/livestreamplayer/DownloadService.kt:49-62 | whatever intent arrives, the service invariant is preserved, earlier status writes and launches are kept, and only stored tasks are launched |
| TaskRows.StatusLabel | app/src/main/java/com/example/livestreamplayer/DownloadTaskAdapter.kt:34-62 | each status gets the label that reads back to that status |
| TaskRows.LabelsIdentifyStatus | app/src/main/java/com/example/livestreamplayer/DownloadTaskAdapter.kt:34-62 | each status has its own label |
| TaskRows.ErrorLine | app/src/main/java/com/example/livestreamplayer/DownloadTaskAdapter.kt:61 | the error line shows the stored message, or "未知错误" when there is none |
| TaskRows.BindTaskRow | app/src/main/java/com/example/livestreamplayer/DownloadTaskAdapter.kt:27-74 | the label names the status; stop shows exactly while downloading; delete and end time show exactly otherwise; the error line shows exactly for errors |
| TaskRows.StopOrDeleteNeverBoth | app/src/main/java/com/example/livestreamplayer/DownloadTaskAdapter.kt:34-70 | a row offers exactly one of stopping and deleting |
| TaskRows.RowFollowsState | app/src/main/java/com/example/livestreamplayer/DownloadTaskAdapter.kt:34-62 | after a status change, the row shows the new status and keeps the title |
| TaskScreen.ShowTasks | app/src/main/java/com/example/livestreamplayer/DownloadTasksActivity.kt:106-117 | the placeholder shows exactly when there are no tasks, and the list shows otherwise |
| TaskScreen.PlaceholderMeansNothingToFind | app/src/main/java/com/example/livestreamplayer/DownloadTasksActivity.kt:106-117 | the placeholder shows exactly when no id finds a task |
| TaskScreen.StopRequest | app/src/main/java/com/example/livestreamplayer/DownloadTasksActivity.kt:119-124 | the stop button sends the stop action with the task id |
| TaskScreen.StopButtonStopsTask | app/src/main/java/com/example/livestreamplayer/DownloadTasksActivity.kt:119-124 | the stop button's command stops exactly that task in the service, which stays sticky |
| TaskScreen.DeleteTask | app/src/main/java/com/example/livestreamplayer/DownloadTasksActivity.kt:130-145 | a delete is refused exactly when the first stored task with the id is downloading; otherwise the id is removed |
| TaskScreen.DeleteGuardMatchesRow | app/src/main/java/com/example/livestreamplayer/DownloadTasksActivity.kt:132-136 | for a listed task, the guard lets deletion through exactly when the row shows the delete button |
| TaskScreen.UnknownTaskPassesGuard | app/src/main/java/com/example/livestreamplayer/DownloadTasksActivity.kt:132-139 | a delete for an id that is not stored is not refused |
| TaskScreen.RefusedTaskCanBeStopped | app/src/main/java/com/example/livestreamplayer/DownloadTasksActivity.kt:133-135 | a refused task's row shows the stop button |
| TaskScreen.CreatedTaskLifecycle | app/src/main/java/com/example/livestreamplayer/DownloadService.kt:218-239 | a newly created task, once stored, is launched and made active by a start command for its id, the service staying valid and sticky; its row offers stop and not delete; deleting it is refused |
| LiveChannelRows.BindLiveChannel | app/src/main/java/com/example/livestreamplayer/LiveChannelAdapter.kt:29-60 | the star is always on and the block button hidden; the download button and the live tag (red) show exactly for live channels, otherwise the recorded tag (blue) |
| LiveChannelRows.DownloadClick | app/src/main/java/com/example/livestreamplayer/LiveChannelAdapter.kt:74-78 | a click passes on the row's own channel, if anything |
| LiveChannelRows.DownloadOnlyFromVisibleButton | app/src/main/java/com/example/livestreamplayer/LiveChannelAdapter.kt:46-78 | a click reaches the recorder exactly when the button shows, which is exactly when the channel is live |
| LiveChannelRows.RowIgnoresPlatform | app/src/main/java/com/example/livestreamplayer/LiveChannelAdapter.kt:29-60 | the platform a channel was favourited under does not affect its row |
| LiveChannelRows.RowIgnoresAddressCase | app/src/main/java/com/example/livestreamplayer/LiveChannelAdapter.kt:46-60 | letter case in the address does not change the row |
| LiveChannelRows.MarkedAddressOffersDownload | app/src/main/java/com/example/livestreamplayer/LiveChannelAdapter.kt:46-52 | an address carrying a marker anywhere gets the download button |

## Left out

- The base URL is an input (`Option<string>`). Deriving it from the configured URL with `java.net.URI` (scheme, host, port) is not modelled.
- CancelDownload: assumes the request URL is one OkHttp accepts. `Request.Builder().url(...)` runs before the `try` (RemoteDownloadApi.kt:51). For a base URL OkHttp rejects, such as "localhost:8000" or "ftp://h", which the base-URL derivation passes through unchanged, it throws IllegalArgumentException, and nothing catches that. The model's configured call always sends its request and classifies the reply, because OkHttp's URL validation is not modelled.
- DeleteCompletedFile: the same assumption and the same gap, at RemoteDownloadApi.kt:81.
- GetTasks: the same assumption and the same gap, at RemoteDownloadApi.kt:107. The corrected listing keeps it too.
- GetTasksAsWritten: "escapes exactly when a non-2xx reply has a body" holds only for URLs OkHttp accepts. A rejected base URL also escapes, at RemoteDownloadApi.kt:107, before anything is sent.
- Request headers, the bearer token and the charset of the request body are not modelled. The request is recorded as method, URL and body members.
- Gson serialisation of the preference lists is taken to round-trip. SharedPreferences is not modelled beyond that.
- JSON parsing is a parameter. So are org.json's number coercion in `optInt` and the date parser. A JSON object is a map from member to its text, so org.json's rendering of a JSON `null` member as "null" is left to that text.
- An element of "items" that is not an object makes `getJSONObject` throw an exception that is not caught. The model's items are always objects.
- Date formatting on the task rows (the start and end time text) is not modelled. Only the visibility of the end-time line is.
- Formatting a missing end time on a finished row is not modelled. The source formats it unguarded.
- The transcoder library is not modelled: running the job, `getSafParameterForWrite` (the output location is an input), and `clearSessions`/`cancel`, which act on every session and not only the stopped one.
- Coroutine cancellation is not modelled. Neither is the race between a stop and a job's completion: completion is a separate step that may arrive at any time.
- A null return code would render as "null" in the error message. The model's return code is always an integer.
- Notifications, the foreground notification's content, service binding and `stopSelf` are not modelled. `inForeground` records only whether the foreground is held.
- The store's reaction to a status write (`updateDownloadTaskStatus`) is not part of this model. Neither are `getDownloadTasks`, `removeDownloadTask` and `getDownloadPath`: the service's writes are a log, and the stored tasks and download path are inputs.
- The clock, the UUID and the formatted timestamp of a new task are inputs.
- Toasts, clipboard copy, playback navigation and menu navigation are not modelled.
- Text.Lower: folds ASCII letters only. Kotlin's and Java's ignore-case comparisons also fold some non-ASCII letters. Of the texts compared against (".m3u8", ".flv", "true", "false"), only "false" is affected: 'ſ' (U+017F) folds to 's', so the source reads "falſe" as false while the model gives the fallback. Every call of `optBoolean` passes false as the fallback (RemoteDownloadApi.kt:125 and 222), so the result is the same.

## Findings

| source | as written | input that shows it | evidently intended | confidence | as-written member | corrected member |
|---|---|---|---|---|---|---|
| app/src/main/java/com/example/livestreamplayer/RemoteDownloadApi.kt:188 | The failure branch of `getTasks` reads the response body again. Line 114 already consumed and closed it, so the read throws IllegalStateException. That is not an IOException, so the exception escapes `getTasks`. | A non-2xx reply with a body, such as a 404 with body "Not Found" | Report the body already read, or "请求失败" without one, as `parseResponse` does at line 214 | medium, not executed | RemoteApi.TasksFromExchangeAsWritten, RemoteApi.GetTasksAsWritten, RemoteApi.ErrorPageEscapesListing | RemoteApi.TasksFromExchange, RemoteApi.GetTasks, RemoteApi.FailuresReportedAlike |
