/** The client of the user-configured remote recording service: list tasks,
    cancel a recording, delete a finished file, and the file's stream URL.
    The HTTP exchange itself is an input (`Exchange`): either the transport
    failed with an I/O error or a response came back. JSON objects are maps
    from member name to the member's text, and JSON parsing, number coercion,
    date parsing and the clock are collaborators the model leaves open. A
    configured base URL is taken to give request URLs the HTTP client accepts;
    a rejected one makes the source throw before anything is sent, which is
    not modelled. */
module RemoteApi {
  import opened Optional
  import opened Text
  import opened Tasks

  /** A JSON object's members, each as the text `optString` would return. */
  type JsonObject = map<string, string>

  /** A parsed reply: its members and, when "items" is an array, its elements. */
  datatype JsonDocument = JsonDocument(fields: JsonObject, items: Option<seq<JsonObject>>)

  /** `JSONObject(text)`: a document, or a `JSONException` with its message. */
  datatype Parsed = Parsed(doc: JsonDocument) | Malformed(reason: Option<string>)

  /** What the model leaves open: JSON parsing, org.json's number coercion in
      `optInt`, `SimpleDateFormat.parse` (None where it throws), and `Date()`. */
  datatype Collaborators = Collaborators(
    parseJson: string -> Parsed,
    toInt: string -> Option<int>,
    parseDate: string -> Option<Instant>,
    now: Instant)

  /** A response: the 2xx test, the body text (null when there is none) and the
      Content-Type header ("" when absent). */
  datatype HttpResponse = HttpResponse(successful: bool, body: Option<string>, contentType: string)

  /** The outcome of one call: an `IOException` (with its message) or a response. */
  datatype Exchange = IoFailure(message: Option<string>) | Replied(response: HttpResponse)

  datatype HttpRequest = Get(url: string) | Post(url: string, body: JsonObject)

  /** The reply to cancel and delete. */
  datatype ApiResponse = ApiResponse(ok: bool, message: string, taskId: Option<string>, id: Option<string>)

  /** The reply to a task listing. */
  datatype TasksResponse = TasksResponse(
    ok: bool, items: seq<DownloadTask>, total: int, page: int, pageSize: int, message: Option<string>)

  /** The request sent (none when short-circuited) and the result returned. */
  datatype Call<R> = Call(request: Option<HttpRequest>, result: R)

  const NotConfigured: string := "远程下载地址未配置"
  const RequestFailed: string := "请求失败"
  const NetworkFailedPrefix: string := "网络请求失败: "
  const WrongTypePrefix: string := "响应类型错误: "
  const ParseErrorPrefix: string := "解析错误: "
  const JsonMediaType: string := "application/json"

  /** Field aliases, in priority order. */
  const UrlAliases: seq<string> := ["url"]
  const PathAliases: seq<string> := ["file_path", "filePath"]
  const StartAliases: seq<string> := ["created_at", "startTime"]
  const EndAliases: seq<string> := ["updated_at", "endTime"]
  const ErrorAliases: seq<string> := ["errorMessage", "error"]

  // ---------------------------------------------------------------------
  // Reading JSON members
  // ---------------------------------------------------------------------

  /** A nullable value inside a Kotlin string template. */
  function Describe(m: Option<string>): string {
    m.GetOr("null")
  }

  /** `optString(key, fallback)`. */
  function OptString(json: JsonObject, key: string, fallback: string): string {
    if key in json then json[key] else fallback
  }

  /** `optBoolean(key, fallback)`: "true"/"false" in any case, else the fallback. */
  function OptBoolean(json: JsonObject, key: string, fallback: bool): (b: bool)
    ensures b <==> || (key in json && SameIgnoringCase(json[key], "true"))
                   || (fallback && !(key in json && SameIgnoringCase(json[key], "false")))
  {
    if key in json && SameIgnoringCase(json[key], "true") then true
    else if key in json && SameIgnoringCase(json[key], "false") then false
    else fallback
  }

  /** A boolean member is read the same whatever the case of its letters. */
  lemma OptBooleanIgnoresCase(json: JsonObject, key: string, v: string, w: string, fallback: bool)
    requires SameIgnoringCase(v, w)
    ensures OptBoolean(json[key := v], key, fallback) == OptBoolean(json[key := w], key, fallback)
  {
    var t: string := "true";
    var f: string := "false";
    assert SameIgnoringCase(v, t) <==> SameIgnoringCase(w, t);
    assert SameIgnoringCase(v, f) <==> SameIgnoringCase(w, f);
  }

  /** `optInt(key, fallback)`: the coerced number, else the fallback. */
  function OptInt(json: JsonObject, key: string, fallback: int, toInt: string -> Option<int>): int {
    if key in json && toInt(json[key]).Some? then toInt(json[key]).value else fallback
  }

  /** `optString(key, null)` with an empty value read as absent. */
  function NonEmptyMember(json: JsonObject, key: string): (r: Option<string>)
    ensures r.Some? <==> key in json && json[key] != ""
    ensures r.Some? ==> r.value == json[key]
  {
    if key in json && json[key] != "" then Some(json[key]) else None
  }

  /** Alias `i` is the first of `keys` whose value is non-empty. */
  ghost predicate FirstNonEmptyAlias(json: JsonObject, keys: seq<string>, i: int) {
    && 0 <= i < |keys|
    && OptString(json, keys[i], "") != ""
    && forall j :: 0 <= j < i ==> OptString(json, keys[j], "") == ""
  }

  /** `optStringMulti(json, keys...)`: the value of the first alias that is
      non-empty, or "" when none is. */
  function OptStringMulti(json: JsonObject, keys: seq<string>): (r: string)
    ensures r == "" <==> forall i :: 0 <= i < |keys| ==> OptString(json, keys[i], "") == ""
    ensures r != "" ==> exists i :: FirstNonEmptyAlias(json, keys, i) && r == OptString(json, keys[i], "")
  {
    if |keys| == 0 then ""
    else
      var v := OptString(json, keys[0], "");
      if v != "" then
        assert FirstNonEmptyAlias(json, keys, 0);
        v
      else
        var r := OptStringMulti(json, keys[1..]);
        assert forall i :: 1 <= i < |keys| ==> keys[i] == keys[1..][i - 1];
        SkipEmptyAlias(json, keys);
        r
  }

  /** When the first alias is empty, the first non-empty alias of the rest is
      the first non-empty alias of the whole list. */
  lemma SkipEmptyAlias(json: JsonObject, keys: seq<string>)
    requires |keys| > 0 && OptString(json, keys[0], "") == ""
    ensures forall i :: FirstNonEmptyAlias(json, keys[1..], i) ==> FirstNonEmptyAlias(json, keys, i + 1)
  {
    forall i | FirstNonEmptyAlias(json, keys[1..], i) ensures FirstNonEmptyAlias(json, keys, i + 1) {
      assert keys[i + 1] == keys[1..][i];
      forall j | 0 <= j < i + 1 ensures OptString(json, keys[j], "") == "" {
        if j > 0 { assert keys[j] == keys[1..][j - 1]; }
      }
    }
  }

  /** Where the preferred spelling of a field is present and non-empty it wins;
      otherwise the alternative spelling is used. */
  lemma AliasPriority(json: JsonObject, preferred: string, alternative: string)
    ensures OptString(json, preferred, "") != "" ==>
              OptStringMulti(json, [preferred, alternative]) == json[preferred]
    ensures OptString(json, preferred, "") == "" ==>
              OptStringMulti(json, [preferred, alternative]) == OptString(json, alternative, "")
  {
    var keys := [preferred, alternative];
    var r := OptStringMulti(json, keys);
    if r != "" {
      var i :| FirstNonEmptyAlias(json, keys, i) && r == OptString(json, keys[i], "");
      assert i == 0 || i == 1;
    }
  }

  // ---------------------------------------------------------------------
  // Decoding one task
  // ---------------------------------------------------------------------

  /** The stream URL with every backtick removed, then trimmed. */
  function CleanUrl(raw: string): (r: string)
    ensures '`' !in r
    ensures r == [] || (!IsWhitespace(r[0]) && !IsWhitespace(r[|r| - 1]))
    ensures exists i :: PaddedAt(RemoveChar(raw, '`'), r, i)
    ensures forall c :: c in r ==> c in raw
  {
    var s := RemoveChar(raw, '`');
    forall c ensures c in Trim(s) ==> c in s {
      TrimKeepsCharacters(s, c);
    }
    Trim(s)
  }

  /** A URL that has no backtick and no surrounding whitespace is kept as it is. */
  lemma CleanUrlKeepsCleanUrl(raw: string)
    requires '`' !in raw
    requires raw == [] || (!IsWhitespace(raw[0]) && !IsWhitespace(raw[|raw| - 1]))
    ensures CleanUrl(raw) == raw
  {
    RemoveAbsentChar(raw, '`');
    assert TrimStart(raw) == raw;
    assert TrimEnd(raw) == raw;
  }

  /** Cleaning a cleaned URL changes nothing. */
  lemma CleanUrlIdempotent(raw: string)
    ensures CleanUrl(CleanUrl(raw)) == CleanUrl(raw)
  {
    CleanUrlKeepsCleanUrl(CleanUrl(raw));
  }

  /** The backticks are dropped wherever they stand, not only at the ends:
      the pieces between them are joined in order before trimming. */
  lemma CleanUrlJoinsPieces(p: string, q: string)
    ensures CleanUrl(p + "`" + q) == Trim(RemoveChar(p, '`') + RemoveChar(q, '`'))
  {
    var tick: string := "`";
    assert RemoveChar(tick, '`') == [];
    RemoveCharDistributes(p, tick, '`');
    assert RemoveChar(p + tick, '`') == RemoveChar(p, '`');
    RemoveCharDistributes(p + tick, q, '`');
  }

  /** The server's name for each status. */
  function RemoteStatusName(st: DownloadStatus): string {
    match st
    case Downloading => "downloading"
    case Completed => "completed"
    case Error => "failed"
    case Cancelled => "cancelled"
  }

  /** The server's status string mapped onto the status type; an unknown string
      (including "" and "error") reads as still downloading. */
  function StatusFromRemote(s: string): (st: DownloadStatus)
    ensures (exists k :: RemoteStatusName(k) == s) ==> RemoteStatusName(st) == s
    ensures (forall k :: RemoteStatusName(k) != s) ==> st == Downloading
  {
    if s == "downloading" then Downloading
    else if s == "completed" then Completed
    else if s == "failed" then Error
    else if s == "cancelled" then Cancelled
    else Downloading
  }

  /** Every status survives the trip through the server's name for it. */
  lemma StatusNamesRoundTrip(st: DownloadStatus)
    ensures StatusFromRemote(RemoteStatusName(st)) == st
  {
  }

  /** The start time: parsed when given and readable, otherwise now. */
  function StartTimeOf(s: string, env: Collaborators): (t: Instant)
    ensures s != "" && env.parseDate(s).Some? ==> t == env.parseDate(s).value
    ensures s == "" || env.parseDate(s).None? ==> t == env.now
  {
    if s != "" then env.parseDate(s).GetOr(env.now) else env.now
  }

  /** The end time: parsed when given and readable, otherwise absent. */
  function EndTimeOf(s: string, env: Collaborators): (t: Option<Instant>)
    ensures t.None? <==> s == "" || env.parseDate(s).None?
    ensures t.Some? ==> env.parseDate(s) == t
  {
    if s != "" then env.parseDate(s) else None
  }

  /** With a single alias, `optStringMulti` is `optString` with an empty fallback. */
  lemma SingleAlias(json: JsonObject, key: string)
    ensures OptStringMulti(json, [key]) == OptString(json, key, "")
  {
    assert [key][1..] == [];
  }

  /** One element of "items" as a task. */
  function DecodeItem(json: JsonObject, env: Collaborators): (t: DownloadTask)
    ensures "id" in json ==> t.id == json["id"]
    ensures "id" !in json ==> t.id == ""
    ensures "title" in json ==> t.channelTitle == json["title"]
    ensures "title" !in json ==> t.channelTitle == ""
    ensures t.outputPath == OptStringMulti(json, PathAliases)
    ensures t.startTime == StartTimeOf(OptStringMulti(json, StartAliases), env)
    ensures t.endTime == EndTimeOf(OptStringMulti(json, EndAliases), env)
    ensures "status" in json ==> t.status == StatusFromRemote(json["status"])
    ensures "status" !in json ==> t.status == Downloading
    ensures t.errorMessage.Some?
    ensures t.errorMessage == Some(OptStringMulti(json, ErrorAliases))
  {
    DownloadTask(
      id := OptString(json, "id", ""),
      channelTitle := OptString(json, "title", ""),
      streamUrl := CleanUrl(OptStringMulti(json, UrlAliases)),
      outputPath := OptStringMulti(json, PathAliases),
      startTime := StartTimeOf(OptStringMulti(json, StartAliases), env),
      endTime := EndTimeOf(OptStringMulti(json, EndAliases), env),
      status := StatusFromRemote(OptString(json, "status", "")),
      errorMessage := Some(OptStringMulti(json, ErrorAliases)))
  }

  /** Each aliased field of an item, member by member: the preferred spelling
      when it is non-empty, otherwise the alternative, otherwise the fallback. */
  lemma DecodeItemFields(json: JsonObject, env: Collaborators)
    ensures DecodeItem(json, env).streamUrl == CleanUrl(OptString(json, "url", ""))
    ensures var t := DecodeItem(json, env);
            && (OptString(json, "file_path", "") != "" ==> t.outputPath == json["file_path"])
            && (OptString(json, "file_path", "") == "" ==> t.outputPath == OptString(json, "filePath", ""))
            && (OptString(json, "errorMessage", "") != "" ==> t.errorMessage == Some(json["errorMessage"]))
            && (OptString(json, "errorMessage", "") == "" ==> t.errorMessage == Some(OptString(json, "error", "")))
    ensures var t := DecodeItem(json, env);
            && (OptString(json, "created_at", "") != "" && env.parseDate(json["created_at"]).Some? ==>
                  t.startTime == env.parseDate(json["created_at"]).value)
            && (OptString(json, "created_at", "") == "" && OptString(json, "startTime", "") == "" ==> t.startTime == env.now)
            && (OptString(json, "updated_at", "") != "" ==> t.endTime == env.parseDate(json["updated_at"]))
            && (OptString(json, "updated_at", "") == "" && OptString(json, "endTime", "") == "" ==> t.endTime.None?)
  {
    SingleAlias(json, "url");
    AliasPriority(json, "file_path", "filePath");
    AliasPriority(json, "errorMessage", "error");
    AliasPriority(json, "created_at", "startTime");
    AliasPriority(json, "updated_at", "endTime");
  }

  /** The elements of "items" decoded one by one, in order. */
  function DecodeItems(items: seq<JsonObject>, env: Collaborators): (ts: seq<DownloadTask>)
    ensures |ts| == |items|
    ensures forall i :: 0 <= i < |items| ==> ts[i] == DecodeItem(items[i], env)
  {
    seq(|items|, i requires 0 <= i < |items| => DecodeItem(items[i], env))
  }

  /** The page built from a parsed reply. */
  function DecodePage(doc: JsonDocument, page: int, pageSize: int, env: Collaborators): (r: TasksResponse)
    ensures r.ok <==> "ok" in doc.fields && SameIgnoringCase(doc.fields["ok"], "true")
    ensures "message" in doc.fields ==> r.message == Some(doc.fields["message"])
    ensures "message" !in doc.fields ==> r.message == Some(UnknownError)
    ensures doc.items.None? ==> r.items == []
    ensures doc.items.Some? ==> |r.items| == |doc.items.value|
    ensures doc.items.Some? ==> forall i :: 0 <= i < |r.items| ==> r.items[i] == DecodeItem(doc.items.value[i], env)
    ensures "total" in doc.fields && env.toInt(doc.fields["total"]).Some? ==> r.total == env.toInt(doc.fields["total"]).value
    ensures !("total" in doc.fields && env.toInt(doc.fields["total"]).Some?) ==> r.total == 0
    ensures "page" in doc.fields && env.toInt(doc.fields["page"]).Some? ==> r.page == env.toInt(doc.fields["page"]).value
    ensures !("page" in doc.fields && env.toInt(doc.fields["page"]).Some?) ==> r.page == page
    ensures "pageSize" in doc.fields && env.toInt(doc.fields["pageSize"]).Some? ==> r.pageSize == env.toInt(doc.fields["pageSize"]).value
    ensures !("pageSize" in doc.fields && env.toInt(doc.fields["pageSize"]).Some?) ==> r.pageSize == pageSize
  {
    TasksResponse(
      ok := OptBoolean(doc.fields, "ok", false),
      items := DecodeItems(doc.items.GetOr([]), env),
      total := OptInt(doc.fields, "total", 0, env.toInt),
      page := OptInt(doc.fields, "page", page, env.toInt),
      pageSize := OptInt(doc.fields, "pageSize", pageSize, env.toInt),
      message := Some(OptString(doc.fields, "message", UnknownError)))
  }

  /** A document missing "items", "total", "page", "pageSize" and "ok" gives an
      empty, not-ok page that echoes the requested page and size. */
  lemma MissingMembersFallBack(doc: JsonDocument, page: int, pageSize: int, env: Collaborators)
    requires doc.items.None?
    requires "ok" !in doc.fields && "total" !in doc.fields
    requires "page" !in doc.fields && "pageSize" !in doc.fields
    ensures DecodePage(doc, page, pageSize, env) == TasksResponse(false, [], 0, page, pageSize,
              Some(OptString(doc.fields, "message", UnknownError)))
  {
  }

  // ---------------------------------------------------------------------
  // Classifying replies
  // ---------------------------------------------------------------------

  /** A failed listing: not ok and nothing in it. */
  function TasksFailure(message: string): TasksResponse {
    TasksResponse(false, [], 0, 0, 0, Some(message))
  }

  /** A reply carries usable JSON: 2xx, a body, a JSON content type, and a body that parses. */
  predicate UsableJson(resp: HttpResponse, env: Collaborators) {
    && resp.successful
    && resp.body.Some?
    && Contains(resp.contentType, JsonMediaType, false)
    && env.parseJson(resp.body.value).Parsed?
  }

  /** The listing built from one exchange. */
  function TasksFromExchange(exchange: Exchange, page: int, pageSize: int, env: Collaborators): (r: TasksResponse)
    ensures exchange.Replied? && UsableJson(exchange.response, env) ==>
              r == DecodePage(env.parseJson(exchange.response.body.value).doc, page, pageSize, env)
    ensures !(exchange.Replied? && UsableJson(exchange.response, env)) ==>
              !r.ok && r.items == [] && r.total == 0 && r.page == 0 && r.pageSize == 0
    ensures exchange.Replied? && !(exchange.response.successful && exchange.response.body.Some?) ==>
              r.message == Some(exchange.response.body.GetOr(RequestFailed))
    ensures exchange.IoFailure? ==> r.message == Some(NetworkFailedPrefix + Describe(exchange.message))
    ensures exchange.Replied? && exchange.response.successful && exchange.response.body.Some?
            && !Contains(exchange.response.contentType, JsonMediaType, false) ==>
              r.message == Some(WrongTypePrefix + exchange.response.contentType)
    ensures exchange.Replied? && exchange.response.successful && exchange.response.body.Some?
            && Contains(exchange.response.contentType, JsonMediaType, false)
            && env.parseJson(exchange.response.body.value).Malformed? ==>
              r.message == Some(ParseErrorPrefix + Describe(env.parseJson(exchange.response.body.value).reason))
  {
    match exchange
    case IoFailure(m) => TasksFailure(NetworkFailedPrefix + Describe(m))
    case Replied(resp) =>
      if resp.successful && resp.body.Some? then
        if !Contains(resp.contentType, JsonMediaType, false) then TasksFailure(WrongTypePrefix + resp.contentType)
        else
          match env.parseJson(resp.body.value)
          case Malformed(reason) => TasksFailure(ParseErrorPrefix + Describe(reason))
          case Parsed(doc) => DecodePage(doc, page, pageSize, env)
      else TasksFailure(resp.body.GetOr(RequestFailed))
  }

  /** What a call hands back to its caller: a value, or an exception that escapes it. */
  datatype Escaping<R> = Returned(value: R) | Escaped(exception: string)

  const BodyClosed: string := "IllegalStateException: closed"

  /** The listing with its failure branch as written: that branch reads the
      response body a second time. The first read already consumed and closed
      it, so reading a present body again throws, and the exception is not an
      `IOException`, so it escapes the call. Only an absent body gives the
      fallback message. */
  function TasksFromExchangeAsWritten(exchange: Exchange, page: int, pageSize: int, env: Collaborators): (r: Escaping<TasksResponse>)
    ensures r.Escaped? <==> exchange.Replied? && !exchange.response.successful && exchange.response.body.Some?
    ensures r.Returned? ==> r.value == TasksFromExchange(exchange, page, pageSize, env)
  {
    match exchange
    case Replied(resp) =>
      if resp.successful && resp.body.Some? then Returned(TasksFromExchange(exchange, page, pageSize, env))
      else if resp.body.Some? then Escaped(BodyClosed)
      else Returned(TasksFailure(RequestFailed))
    case IoFailure(_) => Returned(TasksFromExchange(exchange, page, pageSize, env))
  }

  /** An HTTP error with a body (a 404 page, say) escapes the listing as
      written, while the failure branch evidently meant to report that body,
      as the reply to cancel and delete does. */
  lemma ErrorPageEscapesListing(page: int, pageSize: int, env: Collaborators)
    ensures var resp := HttpResponse(false, Some("Not Found"), "text/html");
            && TasksFromExchangeAsWritten(Replied(resp), page, pageSize, env).Escaped?
            && TasksFromExchange(Replied(resp), page, pageSize, env) == TasksFailure("Not Found")
            && ParseResponse(resp, env).message == "Not Found"
  {
  }

  /** A reply without usable JSON is reported alike by the listing and by
      cancel and delete: not ok, with the same message. */
  lemma FailuresReportedAlike(resp: HttpResponse, page: int, pageSize: int, env: Collaborators)
    requires !resp.successful || resp.body.None?
    ensures TasksFromExchange(Replied(resp), page, pageSize, env).message == Some(ParseResponse(resp, env).message)
    ensures !TasksFromExchange(Replied(resp), page, pageSize, env).ok && !ParseResponse(resp, env).ok
  {
  }

  /** `parseResponse`: the reply to cancel and delete. */
  function ParseResponse(resp: HttpResponse, env: Collaborators): (r: ApiResponse)
    ensures r.ok <==> UsableJson(resp, env) && OptBoolean(env.parseJson(resp.body.value).doc.fields, "ok", false)
    ensures UsableJson(resp, env) ==>
              var f := env.parseJson(resp.body.value).doc.fields;
              && (r.ok <==> "ok" in f && SameIgnoringCase(f["ok"], "true"))
              && ("message" in f ==> r.message == f["message"])
              && ("message" !in f ==> r.message == UnknownError)
              && (r.taskId.Some? <==> "taskId" in f && f["taskId"] != "")
              && (r.taskId.Some? ==> r.taskId.value == f["taskId"])
              && (r.id.Some? <==> "id" in f && f["id"] != "")
              && (r.id.Some? ==> r.id.value == f["id"])
    ensures !UsableJson(resp, env) ==> r.taskId.None? && r.id.None?
    ensures !resp.successful || resp.body.None? ==> r.message == resp.body.GetOr(RequestFailed)
    ensures resp.successful && resp.body.Some? && !Contains(resp.contentType, JsonMediaType, false) ==>
              r.message == WrongTypePrefix + resp.contentType
    ensures resp.successful && resp.body.Some? && Contains(resp.contentType, JsonMediaType, false)
            && env.parseJson(resp.body.value).Malformed? ==>
              r.message == ParseErrorPrefix + Describe(env.parseJson(resp.body.value).reason)
  {
    if !resp.successful || resp.body.None? then ApiResponse(false, resp.body.GetOr(RequestFailed), None, None)
    else if !Contains(resp.contentType, JsonMediaType, false) then ApiResponse(false, WrongTypePrefix + resp.contentType, None, None)
    else
      match env.parseJson(resp.body.value)
      case Malformed(reason) => ApiResponse(false, ParseErrorPrefix + Describe(reason), None, None)
      case Parsed(doc) =>
        ApiResponse(
          OptBoolean(doc.fields, "ok", false),
          OptString(doc.fields, "message", UnknownError),
          NonEmptyMember(doc.fields, "taskId"),
          NonEmptyMember(doc.fields, "id"))
  }

  /** The reply to cancel or delete after one exchange. */
  function ApiFromExchange(exchange: Exchange, env: Collaborators): (r: ApiResponse)
    ensures r.ok ==> exchange.Replied? && UsableJson(exchange.response, env)
    ensures exchange.IoFailure? ==> r == ApiResponse(false, NetworkFailedPrefix + Describe(exchange.message), None, None)
    ensures exchange.Replied? ==> r == ParseResponse(exchange.response, env)
  {
    match exchange
    case IoFailure(m) => ApiResponse(false, NetworkFailedPrefix + Describe(m), None, None)
    case Replied(resp) => ParseResponse(resp, env)
  }

  // ---------------------------------------------------------------------
  // The four entry points
  // ---------------------------------------------------------------------

  /** The body of a cancel request: the id when it is not blank, otherwise the
      title when that is not blank, otherwise nothing; never both. */
  function CancelBody(taskId: Option<string>, title: Option<string>): (body: JsonObject)
    ensures !("id" in body && "title" in body)
    ensures "id" in body <==> !IsNullOrBlank(taskId)
    ensures "id" in body ==> body["id"] == taskId.value
    ensures "title" in body <==> IsNullOrBlank(taskId) && !IsNullOrBlank(title)
    ensures "title" in body ==> body["title"] == title.value
    ensures body.Keys <= {"id", "title"}
  {
    if !IsNullOrBlank(taskId) then map["id" := taskId.value]
    else if !IsNullOrBlank(title) then map["title" := title.value]
    else map[]
  }

  /** `cancelDownload(taskId, title)`. */
  function CancelDownload(baseUrl: Option<string>, taskId: Option<string>, title: Option<string>,
                          exchange: Exchange, env: Collaborators): (c: Call<ApiResponse>)
    ensures baseUrl.None? ==> c == Call(None, ApiResponse(false, NotConfigured, None, None))
    ensures baseUrl.Some? ==> c.request == Some(Post(baseUrl.value + "/cancel", CancelBody(taskId, title)))
    ensures baseUrl.Some? ==> c.result == ApiFromExchange(exchange, env)
    ensures c.result.ok ==> baseUrl.Some? && exchange.Replied? && UsableJson(exchange.response, env)
  {
    match baseUrl
    case None => Call(None, ApiResponse(false, NotConfigured, None, None))
    case Some(base) => Call(Some(Post(base + "/cancel", CancelBody(taskId, title))), ApiFromExchange(exchange, env))
  }

  /** `deleteCompletedFile(taskId)`. */
  function DeleteCompletedFile(baseUrl: Option<string>, taskId: string, exchange: Exchange, env: Collaborators): (c: Call<ApiResponse>)
    ensures baseUrl.None? ==> c == Call(None, ApiResponse(false, NotConfigured, None, None))
    ensures baseUrl.Some? ==> c.request == Some(Post(baseUrl.value + "/delete", map["id" := taskId]))
    ensures baseUrl.Some? ==> c.result == ApiFromExchange(exchange, env)
    ensures c.result.ok ==> baseUrl.Some? && exchange.Replied? && UsableJson(exchange.response, env)
  {
    match baseUrl
    case None => Call(None, ApiResponse(false, NotConfigured, None, None))
    case Some(base) => Call(Some(Post(base + "/delete", map["id" := taskId])), ApiFromExchange(exchange, env))
  }

  /** The listing request's URL. */
  function TasksUrl(base: string, status: string, page: int, pageSize: int): (url: string)
    ensures var head := base + "/tasks?status=" + status + "&page=";
            && |head| <= |url| && url[..|head|] == head
            && url[|head|..] == IntToString(page) + "&pageSize=" + IntToString(pageSize)
  {
    var head := base + "/tasks?status=" + status + "&page=";
    var paging := IntToString(page) + "&pageSize=" + IntToString(pageSize);
    assert (head + paging)[|head|..] == paging;
    head + paging
  }

  /** Two pieces that are free of the separator's first character are split
      alike by the separator. */
  lemma SplitAtSeparator(a: string, t: string, b: string, t2: string, sep: string)
    requires |sep| > 0 && sep[0] !in a && sep[0] !in b
    requires a + sep + t == b + sep + t2
    ensures a == b && t == t2
  {
    var x := a + sep + t;
    assert x == b + sep + t2;
    assert x[|a|] == sep[0] && x[|b|] == sep[0];
    assert forall i :: 0 <= i < |b| ==> x[i] == b[i] && x[i] != sep[0];
    assert forall i :: 0 <= i < |a| ==> x[i] == a[i] && x[i] != sep[0];
    assert |a| == |b|;
    assert a == x[..|a|] && b == x[..|b|];
    assert t == x[|a| + |sep|..] && t2 == x[|b| + |sep|..];
  }

  /** A rendered integer has no '&', so it cannot run into the next query parameter. */
  lemma RenderedIntHasNoAmpersand(n: int)
    ensures '&' !in IntToString(n)
  {
    var s := IntToString(n);
    forall i | 0 <= i < |s| ensures s[i] != '&' {
      assert s[i] == '-' || IsDigit(s[i]);
    }
  }

  /** For one server and status filter, the URL tells the page and the page size apart. */
  lemma TasksUrlIdentifiesPaging(base: string, status: string, page: int, pageSize: int, page2: int, pageSize2: int)
    requires TasksUrl(base, status, page, pageSize) == TasksUrl(base, status, page2, pageSize2)
    ensures page == page2 && pageSize == pageSize2
  {
    var sep := "&pageSize=";
    var a, b := IntToString(page), IntToString(page2);
    var t, t2 := IntToString(pageSize), IntToString(pageSize2);
    assert a + sep + t == b + sep + t2;
    RenderedIntHasNoAmpersand(page);
    RenderedIntHasNoAmpersand(page2);
    SplitAtSeparator(a, t, b, t2, sep);
    IntToStringInjective(page, page2);
    IntToStringInjective(pageSize, pageSize2);
  }

  /** `getTasks(status, page, pageSize)` with its failure branch corrected: an
      HTTP error reports the body already read (see `GetTasksAsWritten`). */
  function GetTasks(baseUrl: Option<string>, status: string, page: int, pageSize: int,
                    exchange: Exchange, env: Collaborators): (c: Call<TasksResponse>)
    ensures baseUrl.None? ==> c == Call(None, TasksFailure(NotConfigured))
    ensures baseUrl.Some? ==> c.request == Some(Get(TasksUrl(baseUrl.value, status, page, pageSize)))
    ensures baseUrl.Some? ==> c.result == TasksFromExchange(exchange, page, pageSize, env)
    ensures c.result.ok ==> baseUrl.Some? && exchange.Replied? && UsableJson(exchange.response, env)
  {
    match baseUrl
    case None => Call(None, TasksFailure(NotConfigured))
    case Some(base) => Call(Some(Get(TasksUrl(base, status, page, pageSize))), TasksFromExchange(exchange, page, pageSize, env))
  }

  /** `getTasks(status, page, pageSize)` as written: an HTTP error with a body
      escapes as an exception instead of returning a listing. */
  function GetTasksAsWritten(baseUrl: Option<string>, status: string, page: int, pageSize: int,
                             exchange: Exchange, env: Collaborators): (c: Call<Escaping<TasksResponse>>)
    ensures c.request == GetTasks(baseUrl, status, page, pageSize, exchange, env).request
    ensures c.result.Escaped? <==> baseUrl.Some? && exchange.Replied? && !exchange.response.successful && exchange.response.body.Some?
    ensures c.result.Returned? ==> c.result.value == GetTasks(baseUrl, status, page, pageSize, exchange, env).result
  {
    match baseUrl
    case None => Call(None, Returned(TasksFailure(NotConfigured)))
    case Some(base) => Call(Some(Get(TasksUrl(base, status, page, pageSize))), TasksFromExchangeAsWritten(exchange, page, pageSize, env))
  }

  /** `getCompletedFileStreamUrl(taskId)`: absent exactly when no base URL is configured. */
  function CompletedFileStreamUrl(baseUrl: Option<string>, taskId: string): (u: Option<string>)
    ensures u.None? <==> baseUrl.None?
    ensures u.Some? ==> u.value == baseUrl.value + "/file?id=" + taskId
  {
    match baseUrl
    case None => None
    case Some(base) => Some(base + "/file?id=" + taskId)
  }

  // ---------------------------------------------------------------------
  // Properties
  // ---------------------------------------------------------------------

  /** A listing is ok exactly when a base URL is configured, the exchange
      produced a 2xx JSON reply that parses, and that reply says ok. */
  lemma TasksOkExactly(baseUrl: Option<string>, status: string, page: int, pageSize: int,
                       exchange: Exchange, env: Collaborators)
    ensures GetTasks(baseUrl, status, page, pageSize, exchange, env).result.ok <==>
              && baseUrl.Some?
              && exchange.Replied?
              && UsableJson(exchange.response, env)
              && OptBoolean(env.parseJson(exchange.response.body.value).doc.fields, "ok", false)
  {
  }

  /** Cancel and delete succeed exactly when a base URL is configured, the
      exchange produced a 2xx JSON reply that parses, and that reply's "ok" is
      true in any letter case; the ids they report come from that reply. */
  lemma ActionsOkExactly(baseUrl: Option<string>, taskId: Option<string>, title: Option<string>, id: string,
                         exchange: Exchange, env: Collaborators)
    ensures var c := CancelDownload(baseUrl, taskId, title, exchange, env).result;
            c.ok <==> && baseUrl.Some? && exchange.Replied? && UsableJson(exchange.response, env)
                      && "ok" in env.parseJson(exchange.response.body.value).doc.fields
                      && SameIgnoringCase(env.parseJson(exchange.response.body.value).doc.fields["ok"], "true")
    ensures var d := DeleteCompletedFile(baseUrl, id, exchange, env).result;
            d.ok <==> && baseUrl.Some? && exchange.Replied? && UsableJson(exchange.response, env)
                      && "ok" in env.parseJson(exchange.response.body.value).doc.fields
                      && SameIgnoringCase(env.parseJson(exchange.response.body.value).doc.fields["ok"], "true")
    ensures var c := CancelDownload(baseUrl, taskId, title, exchange, env).result;
            c.taskId.Some? ==> baseUrl.Some? && exchange.Replied? && UsableJson(exchange.response, env)
                               && c.taskId.value == env.parseJson(exchange.response.body.value).doc.fields["taskId"]
  {
  }

  /** A successful JSON page has exactly one task per element of "items", in order. */
  lemma PageHasOneTaskPerItem(base: string, status: string, page: int, pageSize: int,
                              resp: HttpResponse, env: Collaborators)
    requires UsableJson(resp, env)
    ensures var r := GetTasks(Some(base), status, page, pageSize, Replied(resp), env).result;
            var items := env.parseJson(resp.body.value).doc.items.GetOr([]);
            |r.items| == |items| && forall i :: 0 <= i < |items| ==> r.items[i] == DecodeItem(items[i], env)
  {
    var doc := env.parseJson(resp.body.value).doc;
    assert GetTasks(Some(base), status, page, pageSize, Replied(resp), env).result
        == TasksFromExchange(Replied(resp), page, pageSize, env)
        == DecodePage(doc, page, pageSize, env);
  }

  /** With no base URL configured nothing is sent: cancel, delete and listing
      fail with empty payloads, and there is no file URL. */
  lemma NoBaseUrlShortCircuits(taskId: Option<string>, title: Option<string>, id: string, status: string,
                               page: int, pageSize: int, exchange: Exchange, env: Collaborators)
    ensures var c := CancelDownload(None, taskId, title, exchange, env);
            c.request.None? && !c.result.ok && c.result.taskId.None? && c.result.id.None?
    ensures var d := DeleteCompletedFile(None, id, exchange, env);
            d.request.None? && !d.result.ok && d.result.taskId.None? && d.result.id.None?
    ensures var t := GetTasks(None, status, page, pageSize, exchange, env);
            t.request.None? && !t.result.ok && t.result.items == [] && t.result.total == 0
            && t.result.page == 0 && t.result.pageSize == 0
    ensures CompletedFileStreamUrl(None, id).None?
  {
  }

  /** Different task ids give different file URLs under the same base. */
  lemma FileStreamUrlIdentifiesTask(base: string, a: string, b: string)
    requires CompletedFileStreamUrl(Some(base), a) == CompletedFileStreamUrl(Some(base), b)
    ensures a == b
  {
    var p := base + "/file?id=";
    assert (p + a)[|p|..] == a;
    assert (p + b)[|p|..] == b;
  }

  /** An item spelled with the alternative keys (`file_path`, `created_at`)
      fills the output path and the start time from them. */
  lemma AlternativeKeysAreUsed(json: JsonObject, env: Collaborators)
    requires "file_path" in json && json["file_path"] != "" && "filePath" !in json
    requires "created_at" in json && json["created_at"] != "" && "startTime" !in json
    requires env.parseDate(json["created_at"]).Some?
    ensures DecodeItem(json, env).outputPath == json["file_path"]
    ensures DecodeItem(json, env).startTime == env.parseDate(json["created_at"]).value
  {
    SingleAlias(json, "url");
    AliasPriority(json, "file_path", "filePath");
    AliasPriority(json, "created_at", "startTime");
  }
}
