/**
 * The code-generation endpoint: it checks the request, forwards it to the
 * backend with defaults filled in, checks the structure of the backend's
 * reply, and answers with the files and their metadata.  The request body
 * and the backend's reply are inputs, and so is the time stamp.
 */
module GenerateCodeRoute {
  import opened Wrappers
  import opened Text
  import opened Json
  import CodeSidebar

  /** The object a JSON serialiser writes for members that may be
      `undefined`: an `undefined` member is left out. */
  function WithMember(fields: map<string, Json>, key: string, v: Value): (r: map<string, Json>)
    ensures v.Some? ==> r == fields[key := v.value]
    ensures v.None? ==> r == fields
  {
    if v.Some? then fields[key := v.value] else fields
  }

  // ---------------------------------------------------------------------
  // The forwarded request
  // ---------------------------------------------------------------------

  const DefaultTechStack: seq<string> := ["React", "TypeScript", "Next.js", "Tailwind CSS"]

  /** `projectContext` as forwarded: each member, or its default when it
      is falsy (the context itself may be missing). */
  function ForwardedContext(context: Value): Json {
    JObj(map[
      "name" := Or(OptMember(context, "name"), JStr("Web Application")),
      "description" := Or(OptMember(context, "description"), JStr("")),
      "features" := Or(OptMember(context, "features"), JObj(map[])),
      "techStack" := Or(OptMember(context, "techStack"), StringsToJson(DefaultTechStack)),
      "complexity" := Or(OptMember(context, "complexity"), JStr("medium"))])
  }

  /** `codeOptions` as forwarded. */
  function ForwardedOptions(options: Value): Json {
    JObj(map[
      "framework" := Or(OptMember(options, "framework"), JStr("nextjs")),
      "language" := Or(OptMember(options, "language"), JStr("typescript")),
      "styling" := Or(OptMember(options, "styling"), JStr("tailwind")),
      "includeTests" := Or(OptMember(options, "includeTests"), JBool(false)),
      "includeComments" := Or(OptMember(options, "includeComments"), JBool(true))])
  }

  /** The body sent to the backend for a request body that is not
      `null`. */
  function ForwardedBody(body: Json): Json
    requires body != JNull
  {
    var fields := WithMember(map[], "nodeId", Member(body, "nodeId"));
    var fields := WithMember(fields, "nodeTitle", Member(body, "nodeTitle"));
    var fields := WithMember(fields, "nodeDescription", Member(body, "nodeDescription"));
    JObj(fields
      ["nodeType" := Or(Member(body, "nodeType"), JStr("component"))]
      ["projectContext" := ForwardedContext(Member(body, "projectContext"))]
      ["codeOptions" := ForwardedOptions(Member(body, "codeOptions"))])
  }

  /** The defaults: a missing or falsy member is replaced, a truthy one is
      forwarded as it came. */
  lemma ForwardedNodeType(body: Json)
    requires body != JNull
    ensures var f := ForwardedBody(body).fields;
      && (Truthy(Member(body, "nodeType")) ==> Some(f["nodeType"]) == Member(body, "nodeType"))
      && (!Truthy(Member(body, "nodeType")) ==> f["nodeType"] == JStr("component"))
  {
  }

  lemma ForwardedContextDefaults(context: Value)
    ensures var f := ForwardedContext(context).fields;
      && (!Truthy(OptMember(context, "name")) ==> f["name"] == JStr("Web Application"))
      && (!Truthy(OptMember(context, "description")) ==> f["description"] == JStr(""))
      && (!Truthy(OptMember(context, "features")) ==> f["features"] == JObj(map[]))
      && (!Truthy(OptMember(context, "techStack")) ==> f["techStack"] == StringsToJson(DefaultTechStack))
      && (!Truthy(OptMember(context, "complexity")) ==> f["complexity"] == JStr("medium"))
      && (Truthy(OptMember(context, "name")) ==> Some(f["name"]) == OptMember(context, "name"))
  {
  }

  /** `includeComments` is always on: `x || true` is never falsy, and is
      `true` unless the client sent some other truthy value.  Tests are
      off unless the client turned them on. */
  lemma IncludeCommentsAlwaysOn(options: Value)
    ensures var o := ForwardedOptions(options).fields;
      && Truthy(Some(o["includeComments"]))
      && (o["includeComments"].JBool? ==> o["includeComments"] == JBool(true))
      && (!Truthy(OptMember(options, "includeTests")) ==> o["includeTests"] == JBool(false))
      && (!Truthy(OptMember(options, "framework")) ==> o["framework"] == JStr("nextjs"))
      && (!Truthy(OptMember(options, "language")) ==> o["language"] == JStr("typescript"))
      && (!Truthy(OptMember(options, "styling")) ==> o["styling"] == JStr("tailwind"))
  {
  }

  // ---------------------------------------------------------------------
  // Files and line counts
  // ---------------------------------------------------------------------

  const FileKeys: set<string> := {"name", "path", "content", "language", "type", "description", "prd"}

  /** A file as returned: only its seven known members. */
  function PickFile(file: Json): (r: Json)
    ensures r.JObj?
    ensures forall k :: k in r.fields <==> k in FileKeys && Member(file, k).Some?
    ensures forall k :: k in r.fields ==> Some(r.fields[k]) == Member(file, k)
  {
    JObj(map k | k in FileKeys && Member(file, k).Some? :: Member(file, k).value)
  }

  /** The lines a file counts for: `file.content?.split('\n').length || 0`.
      `None` when counting throws: a `null` file, or a content that is
      neither a string nor `undefined` or `null`. */
  function FileLines(file: Json): (r: Option<nat>)
    ensures r.None? <==> file == JNull || (var c := Member(file, "content"); c.Some? && !c.value.JNull? && !c.value.JStr?)
  {
    if file.JNull? then None
    else
      var content := Member(file, "content");
      if AccessThrows(content) then Some(0)
      else if content.value.JStr? then Some(CodeSidebar.LineCount(content.value.s))
      else None
  }

  /** The files can all be counted. */
  predicate Countable(files: seq<Json>) {
    forall i :: 0 <= i < |files| ==> FileLines(files[i]).Some?
  }

  /** The `reduce` computing `totalLines`. */
  function TotalLines(files: seq<Json>): nat
    requires Countable(files)
  {
    if files == [] then 0
    else TotalLines(files[..|files| - 1]) + FileLines(files[|files| - 1]).value
  }

  /** Each file with a text content counts its newlines plus one, and the
      others count nothing: the total is at least the number of files
      with a text content, and exactly the number of newlines plus that
      number. */
  function TextFiles(files: seq<Json>): nat {
    if files == [] then 0
    else TextFiles(files[..|files| - 1]) + (if HasText(files[|files| - 1]) then 1 else 0)
  }

  predicate HasText(file: Json) {
    file.JObj? && "content" in file.fields && file.fields["content"].JStr?
  }

  function Newlines(files: seq<Json>): nat {
    if files == [] then 0
    else
      var last := files[|files| - 1];
      Newlines(files[..|files| - 1]) + (if HasText(last) then CountChar(last.fields["content"].s, '\n') else 0)
  }

  lemma {:induction false} TotalLinesCount(files: seq<Json>)
    requires Countable(files)
    ensures TotalLines(files) == Newlines(files) + TextFiles(files)
    ensures TotalLines(files) >= TextFiles(files)
  {
    if files != [] {
      var init := files[..|files| - 1];
      assert Countable(init) by {
        forall i | 0 <= i < |init| ensures FileLines(init[i]).Some? {
          assert init[i] == files[i];
        }
      }
      TotalLinesCount(init);
      var last := files[|files| - 1];
      if HasText(last) {
        CodeSidebar.LineCountIsNewlines(last.fields["content"].s);
      }
    }
  }

  // ---------------------------------------------------------------------
  // The response
  // ---------------------------------------------------------------------

  /** What the backend did with the forwarded request: no response, or a
      response with its `ok` flag, its status and its parsed body (`None`
      when the body is not JSON). */
  datatype BackendReply = NoResponse | Reply(ok: bool, status: int, body: Option<Json>)

  /** The route's answer: a status and a JSON body, or the 500 "Internal
      server error" whose details carry the text of what was thrown. */
  datatype RouteResponse = Respond(status: int, body: Json) | InternalError

  const ValidationFailure: RouteResponse :=
    Respond(400, JObj(map["success" := JBool(false), "error" := JStr("Node title and description are required")]))

  const InvalidStructure: RouteResponse :=
    Respond(500, JObj(map[
      "success" := JBool(false),
      "error" := JStr("Invalid response from backend"),
      "details" := JStr("Backend did not return expected file structure")]))

  /** The answer to a backend that is not ok. */
  function BackendFailure(errorData: Json, status: int): RouteResponse {
    if errorData.JNull? then InternalError
    else
      Respond(status, JObj(map[
        "success" := JBool(false),
        "error" := Or(Member(errorData, "error"), Or(Member(errorData, "message"), JStr("Backend request failed"))),
        "details" := Or(Member(errorData, "details"), JStr("Unknown backend error"))]))
  }

  /** The route's structure check: `success`, `data` and `data.files` must
      all be truthy. */
  predicate WellStructured(result: Json)
    requires result != JNull
  {
    Truthy(Member(result, "success")) && Truthy(Member(result, "data"))
    && Truthy(Member(Member(result, "data").value, "files"))
  }

  /** The answer to a reply with the expected structure. */
  function Success(body: Json, result: Json, files: seq<Json>, now: string): RouteResponse
    requires body != JNull && result != JNull && WellStructured(result) && Countable(files)
  {
    var data := Member(result, "data").value;
    var metadata := Member(result, "metadata");
    var outData := WithMember(map[], "summary", Member(data, "summary"));
    var outData := WithMember(outData, "instructions", Member(data, "instructions"));
    var outData := WithMember(outData, "dependencies", Member(data, "dependencies"));
    var outData := WithMember(outData, "nodeId", Member(body, "nodeId"));
    var outData := WithMember(outData, "nodeTitle", Member(body, "nodeTitle"));
    var outData := WithMember(outData, "nodeType", Member(body, "nodeType"));
    var outMeta := WithMember(map[], "provider", OptMember(metadata, "provider"));
    var outMeta := WithMember(outMeta, "responseTime", OptMember(metadata, "responseTime"));
    Respond(200, JObj(map[
      "success" := JBool(true),
      "data" := JObj(outData["files" := JArr(seq(|files|, i requires 0 <= i < |files| => PickFile(files[i])))]),
      "metadata" := JObj(outMeta
        ["filesGenerated" := JNum(|files|)]
        ["totalLines" := JNum(TotalLines(files))]
        ["timestamp" := JStr(now)])]))
  }

  /** `POST`: `body` is the parsed request (`None` when it is not JSON). */
  function Post(body: Option<Json>, reply: BackendReply, now: string): RouteResponse {
    if body.None? || body.value.JNull? then InternalError
    else
      var b := body.value;
      if !Truthy(Member(b, "nodeTitle")) || !Truthy(Member(b, "nodeDescription")) then ValidationFailure
      else
        match reply
        case NoResponse => InternalError
        case Reply(ok, status, replyBody) =>
          if replyBody.None? then InternalError
          else if !ok then BackendFailure(replyBody.value, status)
          else
            var result := replyBody.value;
            if result.JNull? then InternalError
            else if !WellStructured(result) then InvalidStructure
            else
              var filesValue := Member(Member(result, "data").value, "files").value;
              if !filesValue.JArr? || !Countable(filesValue.items) then InternalError
              else Success(b, result, filesValue.items, now)
  }

  /** The request is refused with 400 exactly when its title or its
      description is falsy, and then the backend plays no part. */
  lemma ValidationIff(body: Json, reply: BackendReply, other: BackendReply, now: string)
    requires body != JNull
    ensures Post(Some(body), reply, now) == ValidationFailure
        <==> !Truthy(Member(body, "nodeTitle")) || !Truthy(Member(body, "nodeDescription"))
    ensures Post(Some(body), reply, now) == ValidationFailure ==> Post(Some(body), other, now) == ValidationFailure
  {
    if Truthy(Member(body, "nodeTitle")) && Truthy(Member(body, "nodeDescription")) {
      var r := Post(Some(body), reply, now);
      assert "details" !in ValidationFailure.body.fields;
      assert r.InternalError? || r.status != 400 || "details" in r.body.fields;
    }
  }

  /** A backend error keeps its status and reports the backend's `error`,
      else its `message`, else "Backend request failed", with its `details`,
      else "Unknown backend error". */
  lemma BackendErrorReported(body: Json, status: int, errorData: Json, now: string)
    requires body != JNull && Truthy(Member(body, "nodeTitle")) && Truthy(Member(body, "nodeDescription"))
    requires errorData != JNull
    ensures var r := Post(Some(body), Reply(false, status, Some(errorData)), now);
      && r.Respond? && r.status == status
      && r.body.fields["success"] == JBool(false)
      && (Truthy(Member(errorData, "error")) ==> Some(r.body.fields["error"]) == Member(errorData, "error"))
      && (!Truthy(Member(errorData, "error")) && Truthy(Member(errorData, "message"))
          ==> Some(r.body.fields["error"]) == Member(errorData, "message"))
      && (!Truthy(Member(errorData, "error")) && !Truthy(Member(errorData, "message"))
          ==> r.body.fields["error"] == JStr("Backend request failed"))
      && (Truthy(Member(errorData, "details")) ==> Some(r.body.fields["details"]) == Member(errorData, "details"))
      && (!Truthy(Member(errorData, "details")) ==> r.body.fields["details"] == JStr("Unknown backend error"))
  {
  }

  /** An ok reply without `success`, `data` or `data.files` gets the 500
      "Invalid response from backend". */
  lemma InvalidStructureReported(body: Json, status: int, result: Json, now: string)
    requires body != JNull && Truthy(Member(body, "nodeTitle")) && Truthy(Member(body, "nodeDescription"))
    requires result != JNull && !WellStructured(result)
    ensures Post(Some(body), Reply(true, status, Some(result)), now) == InvalidStructure
  {
  }

  /** A successful answer says `success: true`, keeps the files' number
      and order, each with only its seven members, and reports their
      number, their total line count and the time stamp. */
  lemma SuccessShape(body: Json, status: int, result: Json, now: string)
    requires body != JNull && Truthy(Member(body, "nodeTitle")) && Truthy(Member(body, "nodeDescription"))
    requires result != JNull && WellStructured(result)
    requires var files := Member(Member(result, "data").value, "files").value;
      files.JArr? && Countable(files.items)
    ensures var files := Member(Member(result, "data").value, "files").value.items;
      var r := Post(Some(body), Reply(true, status, Some(result)), now);
      && r.Respond? && r.status == 200
      && r.body.fields["success"] == JBool(true)
      && var out := r.body.fields["data"].fields["files"];
      && out.JArr? && |out.items| == |files|
      && (forall i :: 0 <= i < |files| ==> out.items[i] == PickFile(files[i]))
      && r.body.fields["metadata"].fields["filesGenerated"] == JNum(|files|)
      && r.body.fields["metadata"].fields["totalLines"] == JNum(TotalLines(files))
      && r.body.fields["metadata"].fields["timestamp"] == JStr(now)
  {
  }
}
