/**
 * The project hook: the pure decisions around its backend calls.  A
 * backend reply is an input: `Threw` when the request failed (network
 * error, an HTTP error status or a body that is not JSON), otherwise the
 * parsed body.  The browser storage is an input too, and so are the
 * clock readings that stamp mock projects.
 */
module UseProject {
  import opened Wrappers
  import opened Text
  import opened Json
  import CreatePage

  // ---------------------------------------------------------------------
  // Failures
  // ---------------------------------------------------------------------

  /** What a failed call throws: an `Error` carrying a message, the
      `TypeError` of reading a member of `null` or `undefined`, the
      `SyntaxError` of parsing a body that is not JSON, or the error of a
      request that never got a response.  Only the first carries a text the
      model states; the others carry the engine's text. */
  datatype Failure =
    | Message(text: string)
    | TypeErrorFailure
    | SyntaxErrorFailure
    | NetworkFailure

  /** `errorData.message || \`HTTP ${status}: ${statusText}\``, as the text of
      the thrown `Error`. */
  function ErrorMessage(message: Value, status: int, statusText: string): (r: string)
    ensures Truthy(message) ==> r == ToText(message)
    ensures !Truthy(message) ==> StartsWith(r, "HTTP ") && EndsWith(r, ": " + statusText)
  {
    if Truthy(message) then ToText(message)
    else
      var r := "HTTP " + IntToString(status) + ": " + statusText;
      assert r[..5] == "HTTP ";
      assert r[|r| - |": " + statusText|..] == ": " + statusText;
      r
  }

  /** Without a message in the body, the text tells the status and the
      status text apart: two failures with the same text have the same
      status and the same status text. */
  lemma ErrorMessageDeterminesStatus(s1: int, t1: string, s2: int, t2: string)
    requires ErrorMessage(None, s1, t1) == ErrorMessage(None, s2, t2)
    ensures s1 == s2 && t1 == t2
  {
    var a := IntToString(s1);
    var b := IntToString(s2);
    HttpFallbackShape(s1, t1);
    HttpFallbackShape(s2, t2);
    DropCommonPrefix("HTTP ", a + (": " + t1), b + (": " + t2));
    NoColonInStatus(s1);
    NoColonInStatus(s2);
    NoColonPrefix(a, ": " + t1, b, ": " + t2);
    IntToStringInjective(s1, s2);
    DropCommonPrefix(a, ": " + t1, ": " + t2);
    DropCommonPrefix(": ", t1, t2);
  }

  lemma HttpFallbackShape(status: int, statusText: string)
    ensures ErrorMessage(None, status, statusText) == "HTTP " + (IntToString(status) + (": " + statusText))
  {
  }

  lemma DropCommonPrefix(p: string, x: string, y: string)
    requires p + x == p + y
    ensures x == y
  {
    assert x == (p + x)[|p|..];
    assert y == (p + y)[|p|..];
  }

  /** A rendered status code has no colon in it. */
  lemma NoColonInStatus(status: int)
    ensures forall i :: 0 <= i < |IntToString(status)| ==> IntToString(status)[i] != ':'
  {
    if status < 0 {
      NegativeRendering(status);
      var s := IntToString(status);
      forall i | 0 <= i < |s| ensures s[i] != ':' {
        if i > 0 {
          assert s[i] == NatToString(-status)[i - 1];
        }
      }
    }
  }

  /** Two strings without a colon, each followed by a text opening with a
      colon, are equal when the concatenations are. */
  lemma NoColonPrefix(a: string, x: string, b: string, y: string)
    requires forall i :: 0 <= i < |a| ==> a[i] != ':'
    requires forall i :: 0 <= i < |b| ==> b[i] != ':'
    requires x != [] && x[0] == ':' && y != [] && y[0] == ':'
    requires a + x == b + y
    ensures a == b
  {
    FirstColon(a, x);
    FirstColon(b, y);
    assert a == (a + x)[..|a|] && b == (b + y)[..|b|];
  }

  /** The first colon of `a + x` is the one opening `x` when `a` has
      none. */
  lemma {:induction false} FirstColon(a: string, x: string)
    requires forall i :: 0 <= i < |a| ==> a[i] != ':'
    requires x != [] && x[0] == ':'
    ensures IndexOf(a + x, ":") == Some(|a|)
    decreases |a|
  {
    if a == [] {
      assert a + x == x && x[..1] == ":";
    } else {
      assert (a + x)[..1] == [a[0]];
      assert (a + x)[1..] == a[1..] + x;
      FirstColon(a[1..], x);
    }
  }

  /** The error `request` throws for a response that is not ok: the body
      is parsed with failures replaced by `{}`, and reading `message` of a
      `null` body throws. */
  function RequestFailure(body: Option<Json>, status: int, statusText: string): (r: Failure)
    ensures r.TypeErrorFailure? <==> body == Some(JNull)
    ensures body.None? ==> r == Message(ErrorMessage(None, status, statusText))
  {
    var errorData := body.GetOr(JObj(map[]));
    if errorData.JNull? then TypeErrorFailure
    else Message(ErrorMessage(Member(errorData, "message"), status, statusText))
  }

  /** The error `updateProject` and `deleteProject` throw for a response
      that is not ok: there the body is parsed without a fallback. */
  function DirectFailure(body: Option<Json>, status: int, statusText: string): (r: Failure)
    ensures r.SyntaxErrorFailure? <==> body.None?
    ensures body.Some? ==> r == RequestFailure(body, status, statusText)
  {
    if body.None? then SyntaxErrorFailure else RequestFailure(body, status, statusText)
  }

  // ---------------------------------------------------------------------
  // Backend replies
  // ---------------------------------------------------------------------

  /** The outcome of `apiClient.request`. */
  datatype Reply = Threw | Replied(body: Json)

  /** `result.data || result`; reading `data` of a `null` body throws. */
  function Unwrap(result: Json): (r: Option<Json>)
    ensures r.None? <==> result == JNull
    ensures r.Some? && Truthy(Member(result, "data")) ==> Some(r.value) == Member(result, "data")
    ensures r.Some? && !Truthy(Member(result, "data")) ==> r.value == result
  {
    if result.JNull? then None else Some(Or(Member(result, "data"), result))
  }

  /** The hook's `{project, success, message}`. */
  datatype ProjectResult = ProjectResult(project: Json, success: bool, message: string)

  /** What an operation of the hook resolves to: a value, or the failure
      it records in `error` (it then resolves to `null`, `false` or `[]`). */
  datatype Outcome<T> = Done(value: T) | Errored(failure: Failure)

  // ---------------------------------------------------------------------
  // getAllProjects
  // ---------------------------------------------------------------------

  /** The first shape: a truthy `success`, `data` and `data.projects`. */
  predicate Wrapped(result: Json) {
    var data := Member(result, "data");
    Truthy(Member(result, "success")) && Truthy(data) && Truthy(Member(data.value, "projects"))
  }

  /** `projects.map(p => ({ id: p._id, name: p.name }))`, evaluated for the
      log line of the first shape, does not throw: `projects` is an array
      (no other JSON value has a callable `map`) and no entry is `null`. */
  predicate Mappable(projects: Json) {
    projects.JArr? && forall i :: 0 <= i < |projects.items| ==> projects.items[i] != JNull
  }

  /** The shape dispatch of `getAllProjects` over a reply body that is not
      `null`: `data.projects` of a successful reply, the body itself when
      it is an array, an array-valued `data`, or `[]`; `None` when the log
      line of the first shape throws. */
  function DispatchProjects(result: Json): (r: Option<Json>)
    requires result != JNull
    ensures r.Some? ==> r.value.JArr?
  {
    var data := Member(result, "data");
    if Wrapped(result) then
      var projects := Member(data.value, "projects").value;
      if Mappable(projects) then Some(projects) else None
    else if result.JArr? then Some(result)
    else if Truthy(data) && data.value.JArr? then Some(data.value)
    else Some(JArr([]))
  }

  /** The four shapes, in the order they are tried, each with the exact
      condition under which it is chosen; the first one throws exactly
      when its `projects` is not an array or holds a `null`. */
  lemma DispatchShapes(result: Json)
    requires result != JNull
    ensures var data := Member(result, "data");
      var wrapped := Truthy(Member(result, "success")) && Truthy(data) && Truthy(Member(data.value, "projects"));
      && (wrapped ==> (DispatchProjects(result).None? <==> !Mappable(Member(data.value, "projects").value)))
      && (wrapped && DispatchProjects(result).Some? ==> DispatchProjects(result) == Member(data.value, "projects"))
      && (!wrapped && result.JArr? ==> DispatchProjects(result) == Some(result))
      && (!wrapped && !result.JArr? && data.Some? && data.value.JArr? ==> DispatchProjects(result) == Some(data.value))
      && (!wrapped && !result.JArr? && !(data.Some? && data.value.JArr?) ==> DispatchProjects(result) == Some(JArr([])))
  {
  }

  /** An array reply is returned as it is, and so is an array-valued
      `data` of an object reply: an array has no `projects` member, so
      the first shape never takes them. */
  lemma DispatchArrays(result: Json)
    requires result != JNull
    ensures result.JArr? ==> DispatchProjects(result) == Some(result)
    ensures result.JObj? && Member(result, "data").Some? && Member(result, "data").value.JArr?
            ==> DispatchProjects(result) == Some(Member(result, "data").value)
  {
  }

  /** One entry of the browser storage: its key and what `JSON.parse`
      makes of its value (`{}` for an empty value), `None` when the value
      does not parse. */
  datatype StorageEntry = StorageEntry(key: string, parsed: Option<Json>)

  const ProjectKeyPrefix: string := "project-"

  /** The stored projects, in storage order: the parsed values of the
      entries whose key starts with `project-`, skipping the ones that do
      not parse. */
  function StoredProjects(storage: seq<StorageEntry>): (r: seq<Json>)
    ensures |r| <= |storage|
  {
    if storage == [] then []
    else
      var e := storage[|storage| - 1];
      var init := StoredProjects(storage[..|storage| - 1]);
      if StartsWith(e.key, ProjectKeyPrefix) && e.parsed.Some? then init + [e.parsed.value] else init
  }

  /** A value is collected exactly when some `project-` entry parses to
      it. */
  lemma {:induction false} StoredProjectsMembers(storage: seq<StorageEntry>, v: Json)
    ensures v in StoredProjects(storage) <==>
      exists i :: 0 <= i < |storage| && StartsWith(storage[i].key, ProjectKeyPrefix) && storage[i].parsed == Some(v)
  {
    if storage != [] {
      var init := storage[..|storage| - 1];
      StoredProjectsMembers(init, v);
      if exists i :: 0 <= i < |storage| && StartsWith(storage[i].key, ProjectKeyPrefix) && storage[i].parsed == Some(v) {
        var i :| 0 <= i < |storage| && StartsWith(storage[i].key, ProjectKeyPrefix) && storage[i].parsed == Some(v);
        if i < |storage| - 1 {
          assert init[i] == storage[i];
        }
      }
      if v in StoredProjects(init) {
        var i :| 0 <= i < |init| && StartsWith(init[i].key, ProjectKeyPrefix) && init[i].parsed == Some(v);
        assert storage[i] == init[i];
      }
    }
  }

  /** Entries under other keys never contribute: storage without a
      `project-` key yields nothing. */
  lemma {:induction false} StoredProjectsNone(storage: seq<StorageEntry>)
    requires forall i :: 0 <= i < |storage| ==> !StartsWith(storage[i].key, ProjectKeyPrefix)
    ensures StoredProjects(storage) == []
  {
    if storage != [] {
      StoredProjectsNone(storage[..|storage| - 1]);
    }
  }

  /** The `for` loop of the offline fallback of `getAllProjects`. */
  method LocalProjects(storage: seq<StorageEntry>) returns (allProjects: seq<Json>)
    ensures allProjects == StoredProjects(storage)
  {
    allProjects := [];
    var i := 0;
    while i < |storage|
      invariant 0 <= i <= |storage|
      invariant allProjects == StoredProjects(storage[..i])
    {
      var entry := storage[i];
      if StartsWith(entry.key, ProjectKeyPrefix) {
        if entry.parsed.Some? {
          allProjects := allProjects + [entry.parsed.value];
        }
      }
      assert storage[..i + 1][..i] == storage[..i];
      i := i + 1;
    }
    assert storage[..i] == storage;
  }

  /** `getAllProjects`: the dispatch of a reply, or the stored projects
      when the request failed, or the dispatch threw on a `null` body or
      in the log line of the first shape. */
  function GetAllProjects(reply: Reply, storage: seq<StorageEntry>): (r: Json)
    ensures reply.Threw? || reply.body == JNull || DispatchProjects(reply.body).None? ==>
      r == JArr(StoredProjects(storage))
    ensures reply.Replied? && reply.body != JNull && DispatchProjects(reply.body).Some? ==>
      r == DispatchProjects(reply.body).value
  {
    if reply.Threw? || reply.body.JNull? then JArr(StoredProjects(storage))
    else
      match DispatchProjects(reply.body)
      case Some(projects) => projects
      case None => JArr(StoredProjects(storage))
  }

  /** Every path of `getAllProjects` resolves to an array; a wrapped reply
      whose `projects` is not an array, or holds a `null`, falls back to
      the stored projects. */
  lemma GetAllProjectsIsArray(reply: Reply, storage: seq<StorageEntry>)
    ensures GetAllProjects(reply, storage).JArr?
    ensures reply.Replied? && reply.body != JNull && Wrapped(reply.body)
            && !Mappable(Member(Member(reply.body, "data").value, "projects").value)
            ==> GetAllProjects(reply, storage) == JArr(StoredProjects(storage))
  {
  }

  /** Two successful replies whose `projects` cannot be mapped, `{}` and
      `[null]`: both fall back to the stored projects. */
  lemma UnmappableProjectsFallBack(storage: seq<StorageEntry>)
    ensures GetAllProjects(Replied(SuccessWith(JObj(map[]))), storage) == JArr(StoredProjects(storage))
    ensures GetAllProjects(Replied(SuccessWith(JArr([JNull]))), storage) == JArr(StoredProjects(storage))
  {
    assert !Mappable(JArr([JNull])) by {
      assert JArr([JNull]).items[0] == JNull;
    }
  }

  /** The reply `{ success: true, data: { projects } }`. */
  function SuccessWith(projects: Json): Json {
    JObj(map["success" := JBool(true), "data" := JObj(map["projects" := projects])])
  }

  // ---------------------------------------------------------------------
  // The mock mind map of a stored project
  // ---------------------------------------------------------------------

  /** The first "Core Features" entry read with `?.[0]`: `undefined` when
      the list is `undefined` or `null`. */
  function FirstCoreFeature(features: Json): Value
    requires features != JNull
  {
    var core := Member(features, CreatePage.CoreFeatures);
    if AccessThrows(core) then None else Index(core.value, 0)
  }

  /** A node of the synthesised mind map: id, node type, position, and its
      `data` record. */
  datatype SeedNode = SeedNode(id: string, nodeType: string, x: int, y: int, data: map<string, Json>)

  datatype SeedEdge = SeedEdge(id: string, source: string, target: string)

  /** The four nodes and three edges put on a stored project that has no
      mind map; `name` is the project's `name` and `first` its first core
      feature. */
  datatype Seed = Seed(nodes: seq<SeedNode>, edges: seq<SeedEdge>)

  function SeedMindmap(name: Value, first: Value): (r: Seed)
    ensures |r.nodes| == 4 && |r.edges| == 3
  {
    var projectName := ToText(name);
    var nodes := [
      SeedNode("start-1", "startNode", 100, 200, map[
        "title" := JStr("Project Start"),
        "description" := JStr("Initialize " + projectName + " project setup")]),
      SeedNode("task-1", "taskNode", 350, 150, map[
        "title" := Or(first, JStr("Main Feature")),
        "description" := JStr("Implement " + ToText(Some(Or(first, JStr("core functionality"))))),
        "status" := JStr("pending"),
        "priority" := JStr("high"),
        "estimatedHours" := JNum(8)]),
      SeedNode("milestone-1", "milestoneNode", 600, 200, map[
        "title" := JStr("MVP Ready"),
        "description" := JStr("Basic functionality completed and tested"),
        "priority" := JStr("high"),
        "status" := JStr("pending"),
        "estimatedHours" := JNum(40)]),
      SeedNode("end-1", "endNode", 850, 200, map[
        "title" := JStr("Project Complete"),
        "description" := JStr(projectName + " deployed and ready for users")])
    ];
    var edges := [
      SeedEdge("e1-2", "start-1", "task-1"),
      SeedEdge("e2-3", "task-1", "milestone-1"),
      SeedEdge("e3-4", "milestone-1", "end-1")
    ];
    Seed(nodes, edges)
  }

  /** The synthesised map is a chain: start, task, milestone, end, with
      edge `k` going from node `k` to node `k + 1`. */
  lemma SeedMindmapIsChain(name: Value, first: Value)
    ensures var nodes, edges := SeedMindmap(name, first).nodes, SeedMindmap(name, first).edges;
      && nodes[0].id == "start-1" && nodes[1].id == "task-1"
      && nodes[2].id == "milestone-1" && nodes[3].id == "end-1"
      && forall k :: 0 <= k < 3 ==> edges[k].source == nodes[k].id && edges[k].target == nodes[k + 1].id
  {
  }

  /** The task's title is the first core feature when that is truthy, and
      "Main Feature" otherwise (no list, an empty list, or an empty first
      entry). */
  lemma SeedTaskTitle(name: Value, features: Json)
    requires features != JNull
    ensures var title := SeedMindmap(name, FirstCoreFeature(features)).nodes[1].data["title"];
      var core := Member(features, CreatePage.CoreFeatures);
      && title == Or(FirstCoreFeature(features), JStr("Main Feature"))
      && (core.Some? && core.value.JArr? && core.value.items != [] && Truthy(Some(core.value.items[0]))
          ==> title == core.value.items[0])
      && (core.Some? && core.value.JArr? && core.value.items != [] && !Truthy(Some(core.value.items[0]))
          ==> title == JStr("Main Feature"))
      && (AccessThrows(core) || (core.value.JArr? && core.value.items == []) ==> title == JStr("Main Feature"))
  {
  }

  function SeedNodeToJson(n: SeedNode): Json {
    JObj(map[
      "id" := JStr(n.id),
      "type" := JStr(n.nodeType),
      "position" := JObj(map["x" := JNum(n.x), "y" := JNum(n.y)]),
      "data" := JObj(n.data)])
  }

  function SeedEdgeToJson(e: SeedEdge): Json {
    JObj(map["id" := JStr(e.id), "source" := JStr(e.source), "target" := JStr(e.target)])
  }

  function MindmapToJson(m: Seed): Json {
    JObj(map[
      "nodes" := JArr(seq(|m.nodes|, i requires 0 <= i < |m.nodes| => SeedNodeToJson(m.nodes[i]))),
      "edges" := JArr(seq(|m.edges|, i requires 0 <= i < |m.edges| => SeedEdgeToJson(m.edges[i])))])
  }

  // ---------------------------------------------------------------------
  // getProject
  // ---------------------------------------------------------------------

  const MockPrefix: string := "mock-project-"

  /** What `localStorage.getItem` gives for the project's key: nothing, the
      empty string (which is falsy), text that does not parse, or a parsed
      value. */
  datatype StoredItem = Absent | EmptyText | Malformed | Parsed(value: Json)

  /** The stored project completed with a mind map when it has none; a
      `null` project or a missing or `null` `features` throws. */
  function WithMindmap(projectData: Json): (r: Outcome<Json>)
    ensures r.Errored? ==> r.failure == TypeErrorFailure
    ensures projectData == JNull ==> r.Errored?
    ensures projectData != JNull && Truthy(Member(projectData, "mindmap")) ==> r == Done(projectData)
    ensures projectData != JNull && !Truthy(Member(projectData, "mindmap")) ==>
      (r.Errored? <==> AccessThrows(Member(projectData, "features")))
    ensures projectData != JNull && !Truthy(Member(projectData, "mindmap")) && !AccessThrows(Member(projectData, "features")) ==>
      var seed := SeedMindmap(Member(projectData, "name"), FirstCoreFeature(Member(projectData, "features").value));
      r == Done(JObj(projectData.fields["mindmap" := MindmapToJson(seed)]))
  {
    if projectData.JNull? then Errored(TypeErrorFailure)
    else if Truthy(Member(projectData, "mindmap")) then Done(projectData)
    else
      var features := Member(projectData, "features");
      if AccessThrows(features) then Errored(TypeErrorFailure)
      else
        var mindmap := MindmapToJson(SeedMindmap(Member(projectData, "name"), FirstCoreFeature(features.value)));
        Done(JObj(projectData.fields["mindmap" := mindmap]))
  }

  /** A project without a mind map gains the synthesised one, built from
      its own `name` and first core feature, and keeps every other
      member. */
  lemma WithMindmapKeepsMembers(projectData: Json, key: string)
    requires projectData != JNull && !Truthy(Member(projectData, "mindmap"))
    requires WithMindmap(projectData).Done?
    ensures projectData.JObj? && Member(projectData, "features").Some?
    ensures Member(WithMindmap(projectData).value, "mindmap") ==
      Some(MindmapToJson(SeedMindmap(Member(projectData, "name"), FirstCoreFeature(Member(projectData, "features").value))))
    ensures key != "mindmap" ==> Member(WithMindmap(projectData).value, key) == Member(projectData, key)
  {
  }

  function SampleProject(projectId: string, now: string): Json {
    JObj(map[
      "id" := JStr(projectId), "_id" := JStr(projectId),
      "name" := JStr("Sample Project"),
      "description" := JStr("A sample project for demonstration"),
      "features" := JObj(map[CreatePage.CoreFeatures := JArr([JStr("Feature 1"), JStr("Feature 2"), JStr("Feature 3")])]),
      "techStack" := JArr([JStr("React"), JStr("Node.js"), JStr("MongoDB")]),
      "tags" := JArr([JStr("demo"), JStr("sample")]),
      "createdAt" := JStr(now), "updatedAt" := JStr(now)])
  }

  function OfflineProject(projectId: string, now: string): Json {
    JObj(map[
      "id" := JStr(projectId), "_id" := JStr(projectId),
      "name" := JStr("Offline Project"),
      "description" := JStr("This is a fallback project (backend not available)"),
      "features" := JObj(map[CreatePage.CoreFeatures := JArr([JStr("Offline Feature 1"), JStr("Offline Feature 2")])]),
      "techStack" := JArr([JStr("React"), JStr("Node.js")]),
      "tags" := JArr([JStr("offline"), JStr("fallback")]),
      "createdAt" := JStr(now), "updatedAt" := JStr(now)])
  }

  /** `getProject`: a mock id is answered from storage, or with the sample
      project; any other id from the backend, or with the offline project
      when the request fails. */
  function GetProject(projectId: string, stored: StoredItem, reply: Reply, now: string): Outcome<ProjectResult> {
    if StartsWith(projectId, MockPrefix) then
      match stored
      case Parsed(v) =>
        (match WithMindmap(v)
         case Done(p) => Done(ProjectResult(p, true, "Project loaded from localStorage"))
         case Errored(f) => Errored(f))
      case Malformed => Errored(SyntaxErrorFailure)
      case _ => Done(ProjectResult(SampleProject(projectId, now), true, "Mock project data loaded successfully"))
    else
      var unwrapped := if reply.Replied? then Unwrap(reply.body) else None;
      if unwrapped.Some? then Done(ProjectResult(unwrapped.value, true, "Project loaded from backend"))
      else Done(ProjectResult(OfflineProject(projectId, now), true, "Fallback project data (backend offline)"))
  }

  /** A mock id never reaches the backend: the reply has no effect. */
  lemma MockIdIgnoresBackend(projectId: string, stored: StoredItem, r1: Reply, r2: Reply, now: string)
    requires StartsWith(projectId, MockPrefix)
    ensures GetProject(projectId, stored, r1, now) == GetProject(projectId, stored, r2, now)
  {
  }

  /** Any other id never reads the storage, and always succeeds: with the
      unwrapped reply, or with the offline project. */
  lemma BackendIdIgnoresStorage(projectId: string, s1: StoredItem, s2: StoredItem, reply: Reply, now: string)
    requires !StartsWith(projectId, MockPrefix)
    ensures GetProject(projectId, s1, reply, now) == GetProject(projectId, s2, reply, now)
    ensures GetProject(projectId, s1, reply, now).Done?
    ensures GetProject(projectId, s1, reply, now).value.success
    ensures reply.Threw? ==> GetProject(projectId, s1, reply, now).value.project == OfflineProject(projectId, now)
    ensures reply.Replied? && reply.body != JNull ==>
      Some(GetProject(projectId, s1, reply, now).value.project) == Unwrap(reply.body)
  {
  }

  /** A stored project without a mind map is returned with the synthesised
      one when its `features` can be read, and makes the load fail with a
      `TypeError` otherwise. */
  lemma StoredMindmapAdded(projectId: string, v: Json, reply: Reply, now: string)
    requires StartsWith(projectId, MockPrefix)
    requires v != JNull && !Truthy(Member(v, "mindmap"))
    ensures var r := GetProject(projectId, Parsed(v), reply, now);
      && (AccessThrows(Member(v, "features")) <==> r == Errored(TypeErrorFailure))
      && (r.Done? ==> (r.value.success && r.value.message == "Project loaded from localStorage"
        && Member(r.value.project, "mindmap") ==
           Some(MindmapToJson(SeedMindmap(Member(v, "name"), FirstCoreFeature(Member(v, "features").value))))))
  {
    if WithMindmap(v).Done? {
      WithMindmapKeepsMembers(v, "mindmap");
    }
  }

  /** A stored project that has a mind map is returned as it was stored. */
  lemma StoredMindmapKept(projectId: string, v: Json, reply: Reply, now: string)
    requires StartsWith(projectId, MockPrefix)
    requires v != JNull && Truthy(Member(v, "mindmap"))
    ensures GetProject(projectId, Parsed(v), reply, now) == Done(ProjectResult(v, true, "Project loaded from localStorage"))
  {
  }

  // ---------------------------------------------------------------------
  // createProject
  // ---------------------------------------------------------------------

  /** The mock project of an offline creation; `t1` and `t2` are the two
      readings of the clock behind `id` and `_id`, and `now` the time
      stamp. */
  function MockProject(p: CreatePage.ProjectData, t1: nat, t2: nat, now: string): Json {
    JObj(map[
      "id" := JStr(MockPrefix + NatToString(t1)),
      "_id" := JStr(MockPrefix + NatToString(t2)),
      "name" := JStr(p.name),
      "description" := JStr(p.description),
      "features" := JObj(map k | k in p.features :: StringsToJson(p.features[k])),
      "techStack" := StringsToJson(p.techStack),
      "tags" := StringsToJson(p.tags),
      "createdAt" := JStr(now), "updatedAt" := JStr(now)])
  }

  lemma MockProjectIds(p: CreatePage.ProjectData, t1: nat, t2: nat, now: string)
    ensures Member(MockProject(p, t1, t2, now), "id") == Some(JStr(MockPrefix + NatToString(t1)))
    ensures Member(MockProject(p, t1, t2, now), "_id") == Some(JStr(MockPrefix + NatToString(t2)))
    ensures Member(MockProject(p, t1, t2, now), "name") == Some(JStr(p.name))
  {
  }

  /** `createProject`: the unwrapped reply, or the mock project when the
      request fails or the reply is `null`. */
  function CreateProject(p: CreatePage.ProjectData, reply: Reply, t1: nat, t2: nat, now: string): ProjectResult {
    var unwrapped := if reply.Replied? then Unwrap(reply.body) else None;
    if unwrapped.Some? then ProjectResult(unwrapped.value, true, "Project created successfully")
    else ProjectResult(MockProject(p, t1, t2, now), true, "Mock project created (backend offline)")
  }

  /** Creation always reports success, and an offline creation gives a
      project whose id is a mock id, so that loading it later never asks
      the backend; `id` and `_id` agree when the two clock readings do. */
  lemma CreateProjectOffline(p: CreatePage.ProjectData, reply: Reply, t1: nat, t2: nat, now: string)
    ensures CreateProject(p, reply, t1, t2, now).success
    ensures reply.Replied? && reply.body != JNull ==>
      Some(CreateProject(p, reply, t1, t2, now).project) == Unwrap(reply.body)
    ensures reply.Threw? || reply.body == JNull ==>
      CreateProject(p, reply, t1, t2, now).project == MockProject(p, t1, t2, now)
    ensures reply.Threw? ==>
      var project := CreateProject(p, reply, t1, t2, now).project;
      && Member(project, "id").Some? && Member(project, "id").value.JStr?
      && StartsWith(Member(project, "id").value.s, MockPrefix)
      && (t1 == t2 <==> Member(project, "id") == Member(project, "_id"))
      && Member(project, "name") == Some(JStr(p.name))
  {
    if reply.Threw? {
      var project := CreateProject(p, reply, t1, t2, now).project;
      MockProjectIds(p, t1, t2, now);
      StartsWithAppend(MockPrefix, NatToString(t1));
      if Member(project, "id") == Member(project, "_id") {
        assert MockPrefix + NatToString(t1) == MockPrefix + NatToString(t2);
        assert NatToString(t1) == (MockPrefix + NatToString(t1))[|MockPrefix|..];
        NatToStringInjective(t1, t2);
      }
    }
  }

  // ---------------------------------------------------------------------
  // updateProject and deleteProject
  // ---------------------------------------------------------------------

  /** A `fetch` response: `ok`, the status line, and the parsed body
      (`None` when it is not JSON). */
  datatype Response = Response(ok: bool, status: int, statusText: string, body: Option<Json>)

  /** `updateProject`: the parsed body of an ok response; otherwise the
      failure recorded in `error` (and `null` returned).  `None` stands for
      a request that got no response. */
  function UpdateProject(response: Option<Response>): (r: Outcome<Json>)
    ensures r.Done? <==> response.Some? && response.value.ok && response.value.body.Some?
    ensures r.Done? ==> r.value == response.value.body.value
  {
    match response
    case None => Errored(NetworkFailure)
    case Some(res) =>
      if !res.ok then Errored(DirectFailure(res.body, res.status, res.statusText))
      else if res.body.None? then Errored(SyntaxErrorFailure)
      else Done(res.body.value)
  }

  /** `deleteProject`: true for an ok response, whatever its body; false,
      with the failure recorded, otherwise. */
  function DeleteProject(response: Option<Response>): (r: Outcome<bool>)
    ensures r.Done? <==> response.Some? && response.value.ok
    ensures r.Done? ==> r.value
  {
    match response
    case None => Errored(NetworkFailure)
    case Some(res) =>
      if !res.ok then Errored(DirectFailure(res.body, res.status, res.statusText))
      else Done(true)
  }

  /** A failed update or delete records the body's message, or the status
      line when there is none. */
  lemma FailureMessages(res: Response)
    requires !res.ok && res.body.Some? && res.body.value.JObj?
    ensures var m := Member(res.body.value, "message");
      && UpdateProject(Some(res)) == Errored(Message(ErrorMessage(m, res.status, res.statusText)))
      && DeleteProject(Some(res)) == Errored(Message(ErrorMessage(m, res.status, res.statusText)))
  {
  }
}
