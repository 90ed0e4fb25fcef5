# FlowSprint.AI core, modelled in Dafny

FlowSprint.AI turns a project description into a mind map of work items
(start, task, component, milestone and end nodes linked by dependencies) and
generates code and product requirements for each node. This project models
the deterministic logic around that graph and proves properties of it:

- `layout.dfy`: the two layout algorithms of `lib/layout.ts`.
  - The automatic layout is a stable sort by node type followed by a staggered placement.
  - The hierarchical layout walks dependency levels with a `positioned` set and a `result` list, then places the nodes it never reached in a fallback column.
- `canvas.dfy`: the derivations of `MindMapCanvas.tsx`.
  - Nodes are placed on the canvas by index.
  - Edges come from the dependency lists, with a start-to-end chain as fallback.
  - Upstream changes are reconciled into the canvas nodes.
  - The selected node is reported.
- `code_sidebar.dfy`: the text builders of `CodeSidebar.tsx`.
  - The export text of one file, shared by copy and download, and the download name.
  - The "copy all" package.
  - The width clamp, the PRD line classifier and the line count.
- `create_page.dfy`: the create form of `app/Create/page.tsx`.
  - The three validation rules and the feature filter.
  - The keyword-driven tech stack and the project record it prepares and logs.
  - The edit of one feature slot.
- `use_project.dfy`: the pure decisions of `hooks/useProject.ts`.
  - The error-message rule and the `result.data || result` unwrapping.
  - The shape dispatch of `getAllProjects` and its storage fallback.
  - The mock and offline branches of `getProject`, with the synthesised four-node mind map.
  - The offline creation, update and delete.
- `generate_code_route.dfy`: the `POST` handler of the code-generation route.
  - Validation and the defaults of the forwarded body.
  - Backend errors and the structure check.
  - The files and their line counts.
- `task_node.dfy`: the edit and menu state of a task node, the updates it emits and its colour selectors. `TaskNode.MergeIdempotent` shows that the editor page's `{ ...node, ...updates }` merge, in `app/Editor/[projectId]/page.tsx` at lines 419-423, gives the same result when the same update is applied twice.
- `faq_section.dfy`: the open-set toggle of the FAQ section.
- Shared modules:
  - `wrappers.dfy`: `Option`.
  - `text.dfy`: the JavaScript string operations used.
  - `json.dfy`: JSON values with JavaScript truthiness, member access, `||` and `String()`.
  - `mindmap.dfy`: the mind-map node and id helpers.
  - `stable_sort.dfy`: the stable sort behind `Array.prototype.sort`.

Backend replies, browser storage, request bodies and clock readings are
parameters of the functions that use them. State that the components keep
in React hooks is a class whose methods change it.

The hierarchical layout places a node on every non-empty level only when
node ids are unique. The termination measure used covers repeated ids as
well: the number of unplaced ids, then the length of the current level.

## Model

| member | source | states |
|---|---|---|
| Layout.AutoLayout | lib/layout.ts:14-42 | there is one output node per input node, so the empty input gives the empty output |
| Layout.AutoLayoutIsTypeGroups | lib/layout.ts:24-41 | the output is a permutation of the input: the start nodes, then the task and component nodes, then the milestones, then the end nodes, each group in input order; node i moves to x = 100 + 350·i, y = 200 + 150·(i mod 3) and keeps every other field |
| Layout.AutoLayoutOrdered | lib/layout.ts:24-27 | type ranks (start 0, task and component 1, milestone 2, end 3) never decrease along the output |
| Layout.Roots | lib/layout.ts:68 | the first level is exactly the input nodes without dependencies, in input order, and it repeats no id when the input does not |
| Layout.DependentsOfMeaning | lib/layout.ts:57-65 | an id is listed under p in the reverse dependency map exactly when a node with that id lists p as a dependency |
| Layout.AddDependents | lib/layout.ts:59-64 | one node's inner loop appends its id to the entry of each dependency, once per occurrence, and leaves the other entries alone |
| Layout.BuildReverseDependencies | lib/layout.ts:57-65 | `reverseDependencyMap.get(p) \|\| []` is the ids of the nodes that list p, in input order |
| Layout.QueueDependents | lib/layout.ts:91-101 | it queues exactly the listed dependents that exist, are not positioned, have every dependency positioned and are not queued yet: every such dependent ends up queued, nothing else is, no id is queued twice, and earlier queue entries are kept |
| Layout.PlaceKeepsInvariant | lib/layout.ts:87-88 | pushing an unplaced input node whose dependencies are placed keeps the invariant: `positioned` is the ids of `result`, each id once, every entry an input node moved, each after its dependencies |
| Layout.PlaceNode | lib/layout.ts:76-102 | an unpositioned node is pushed at x = 100 + 350·level, y = 150 + 120·index and marked positioned; a positioned one changes nothing; the invariant is kept; every node that placing it made ready is positioned or queued, and (with unique ids) every newly queued node lists it |
| Layout.PlaceLevel | lib/layout.ts:76-103 | a level only appends to `result`, keeps the invariant, positions every one of its nodes, queues nothing when it positioned nothing, places a level of new nodes as one column in level order, and queues, without repeats, every node it made ready, each (with unique ids) new and waiting on a node of the level |
| Layout.WalkLevels | lib/layout.ts:70-107 | the level loop terminates even with cycles and keeps the invariant; its first level is the roots; when it stops, every input node whose dependencies are placed is placed; with unique ids the result is the levels side by side, each level well formed (new nodes, dependencies placed earlier, one dependency in the level before) |
| Layout.PlaceUnreached | lib/layout.ts:110-120 | the final pass appends the unreached nodes in input order at x = 100 + 350·finalLevel, y = 150 + 120·result.length |
| Layout.FallbackColumnIsUnreached | lib/layout.ts:110-120 | the fallback column is the unreached nodes, in input order, each at its row of the final column |
| Layout.FallbackColumnIds | lib/layout.ts:110-120 | the fallback column holds exactly the ids the level walk did not position |
| Layout.HierarchicalLayout | lib/layout.ts:47-123 | empty in, empty out; every output node is an input node moved; the output ids are the input ids; with unique ids every input node appears exactly once; the walked part is dependency-ordered, its first level is the roots, and with unique ids it is the well-formed levels as columns with the roots first, closed under "dependencies placed", leaving out exactly a blocked set of ids; the rest is the fallback column |
| Layout.OptimizeLayout | lib/layout.ts:128-132 | `optimizeLayout` gives the hierarchical layout and repeats every one of its guarantees: moved input nodes, the same ids, the roots-first columns of well-formed levels, the blocked remainder and the fallback column |
| Layout.LeveledAt | lib/layout.ts:70-107 | every level of a well-formed walk is well formed after the levels before it |
| Layout.WalkClosed | lib/layout.ts:72-106 | with unique ids, once every ready node is placed, every node whose dependencies are placed is placed and the unplaced ids form a blocked set |
| Layout.BlockedFallsBack | lib/layout.ts:109-120 | nodes on a dependency cycle, or depending on an id no node carries, are never placed by the level walk and land in the fallback column |
| StableSort.Sort | lib/layout.ts:24-27 | the sort by a rank returns a sorted permutation of its input |
| StableSort.SortIsStable | lib/layout.ts:24-27 | the elements of each rank keep their input order |
| StableSort.SortIsBuckets | lib/layout.ts:24-27 | the sort equals the concatenation of the rank buckets 0..K, an independent reference definition |
| StableSort.SortEnds | app/Editor/components/MindMapCanvas.tsx:118-124 | the first element of the sort has the smallest rank and the last the largest |
| MindMap.FindById | app/Editor/components/MindMapCanvas.tsx:149 | `find` by id gives a node of the list with that id, and nothing exactly when no node has the id |
| MindMap.FindByIdIsFirst | app/Editor/components/MindMapCanvas.tsx:149 | `find` returns the node at the first index carrying the id |
| Canvas.InitialNodes | app/Editor/components/MindMapCanvas.tsx:66-90 | one canvas node per input node, in order, with the same id, type and five data fields; node i is at x = 50 + 280·i, y = 150 + 120·(i mod 3), with the drag handle ".drag-handle" and not selected |
| Canvas.InitialNodesIgnorePositions | app/Editor/components/MindMapCanvas.tsx:66-71 | node lists that differ only in positions give the same canvas nodes |
| Canvas.InitialNodesRoundTrip | app/Editor/components/MindMapCanvas.tsx:75-87 | the mind-map node can be rebuilt from its canvas node, apart from position and dependencies |
| Canvas.EdgesOfMeaning | app/Editor/components/MindMapCanvas.tsx:99-112 | a node contributes an edge for a dependency exactly when the dependency names an existing id |
| Canvas.PushDependencyEdges | app/Editor/components/MindMapCanvas.tsx:99-112 | the inner loop appends exactly the node's edges to existing dependencies, in dependency order |
| Canvas.DependencyEdgesOfMeaning | app/Editor/components/MindMapCanvas.tsx:97-114 | an edge is produced exactly when some node lists an existing id as a dependency |
| Canvas.DependencyEdgeSound | app/Editor/components/MindMapCanvas.tsx:101-110 | every dependency edge joins two existing nodes, runs from the dependency to the node that declares it, and has id "dep-node" |
| Canvas.DependencyEdgeComplete | app/Editor/components/MindMapCanvas.tsx:99-111 | a declared dependency yields its edge exactly when its id exists; a dangling dependency yields none |
| Canvas.DependencyEdgesSplit | app/Editor/components/MindMapCanvas.tsx:97-114 | edges come in node order: the edges of a list are those of a prefix followed by those of the rest |
| Canvas.NoDependencyEdges | app/Editor/components/MindMapCanvas.tsx:97-117 | there is no dependency edge exactly when no node lists an existing id |
| Canvas.CanvasEdgesFallback | app/Editor/components/MindMapCanvas.tsx:116-136 | the chain is used exactly when no dependency edge was produced, dangling ones included, and then has max(n − 1, 0) edges; otherwise the dependency edges are the result |
| Canvas.ChainOrder | app/Editor/components/MindMapCanvas.tsx:118-124 | the fallback order is a permutation of the nodes, sorted start, then others, then end |
| Canvas.ChainOrderIsPartition | app/Editor/components/MindMapCanvas.tsx:118-124 | the fallback order is the stable partition into start nodes, other nodes and end nodes, each in input order |
| Canvas.ChainOrderStartsAtStart | app/Editor/components/MindMapCanvas.tsx:118-120 | when a start node exists, the chain begins at a start node |
| Canvas.ChainOrderEndsAtEnd | app/Editor/components/MindMapCanvas.tsx:121-122 | when an end node exists, the chain finishes at an end node |
| Canvas.ChainEdges | app/Editor/components/MindMapCanvas.tsx:126-135 | the chain has one edge fewer than nodes, edge i being the edge from node i to node i + 1 |
| Canvas.ChainEdgesLink | app/Editor/components/MindMapCanvas.tsx:127-130 | chain edge i has source node i, target node i + 1, and id "a-b" from their ids |
| Canvas.ChainLoop | app/Editor/components/MindMapCanvas.tsx:126-135 | the `for` loop pushes exactly the chain edges |
| Canvas.InitialEdges | app/Editor/components/MindMapCanvas.tsx:94-139 | the nested loops and the fallback loop compute the dependency edges, or the chain when there are none |
| Canvas.CompareAgreesWithRank | app/Editor/components/MindMapCanvas.tsx:118-124 | outside two start nodes or two end nodes, the comparator orders exactly as the start/other/end rank |
| Canvas.CompareInconsistent | app/Editor/components/MindMapCanvas.tsx:118-124 | two start nodes (or two end nodes) each compare as smaller (larger) than the other |
| Canvas.Reconcile | app/Editor/components/MindMapCanvas.tsx:146-182 | `hasChanges` holds exactly when some node needs an update; the result is the reconciled list, and the same list when nothing changed |
| Canvas.ReconcileKeepsLayout | app/Editor/components/MindMapCanvas.tsx:164-177 | reconciliation keeps the count, order, ids, types, positions and view state of every node |
| Canvas.ReconcileData | app/Editor/components/MindMapCanvas.tsx:149-173 | a node without an upstream match is untouched; a matched node ends up with exactly the upstream node's five fields |
| Canvas.ReconcileOnlyChanged | app/Editor/components/MindMapCanvas.tsx:154-161 | a node is rewritten exactly when one of title, description, status, priority or estimatedHours differs |
| Canvas.ReconcileIdempotent | app/Editor/components/MindMapCanvas.tsx:145-183 | reconciling twice against the same upstream nodes equals reconciling once |
| Canvas.ReconcileInitialUnchanged | app/Editor/components/MindMapCanvas.tsx:145-183 | with unique ids, reconciling the initial canvas against its own nodes changes nothing |
| Canvas.SelectedId | app/Editor/components/MindMapCanvas.tsx:218 | the first selected node's id, or null exactly when nothing is selected |
| CodeSidebar.FullFileText | app/Editor/components/CodeSidebar.tsx:166-187 | the appends of the copy handler (and, identically, of the download handler) build the one export text of the file |
| CodeSidebar.WithFileDetails | app/Editor/components/CodeSidebar.tsx:177-187 | the details follow what was built so far, opening with the "**File:**" path line |
| CodeSidebar.ExportTextOpening | app/Editor/components/CodeSidebar.tsx:168-177 | with a PRD the text opens with the PRD title, file name, PRD, 60-'=' banner and "# IMPLEMENTATION CODE" before any code; without one it opens with the path line |
| CodeSidebar.ExportTextClosing | app/Editor/components/CodeSidebar.tsx:185-187 | the text ends with "```" + language + "\n" + content + "\n```" |
| CodeSidebar.ExportTextDescription | app/Editor/components/CodeSidebar.tsx:168-187 | the text is the PRD section, the path, type and language lines, the description line, then the fence; the description line is "**Description:** " + description + "\n\n" when the description is non-empty and absent otherwise |
| CodeSidebar.DetailsLayout | app/Editor/components/CodeSidebar.tsx:177-187 | the details appended to any text are the path, type and language lines, the description line and the fenced content, in that order |
| CodeSidebar.DownloadNameShape | app/Editor/components/CodeSidebar.tsx:225 | without a PRD the name is kept; with one it is the dot-free prefix before the first '.' (the whole name if it has none) followed by "_with_PRD.md" |
| CodeSidebar.CopyAllFiles | app/Editor/components/CodeSidebar.tsx:238-270 | nothing while a copy is under way; otherwise the preamble and one block per file |
| CodeSidebar.AppendFileBlock | app/Editor/components/CodeSidebar.tsx:247-269 | the appends for one file add exactly that file's block |
| CodeSidebar.WithFileBlockExtends | app/Editor/components/CodeSidebar.tsx:247-249 | a block keeps what was built and starts with the 80-'=' banner naming the file and its number |
| CodeSidebar.AllTextGrows | app/Editor/components/CodeSidebar.tsx:246-270 | the text of the first k files is a prefix of the text of all of them |
| CodeSidebar.CopyAllBlocks | app/Editor/components/CodeSidebar.tsx:243-270 | the package starts "# Complete Code Generation Package\nGenerated N files\n\n", and for k = 1..N block k follows blocks 1..k−1 under the banner "# FILE k: name" |
| CodeSidebar.ClampWidth | app/Editor/components/CodeSidebar.tsx:60-64 | the width is never below 300, never above the maximum when that is at least 300, and is the dragged width when it lies between; it is 300 when the maximum is below 300, and the maximum when the dragged width reaches it |
| CodeSidebar.ClampIdempotent | app/Editor/components/CodeSidebar.tsx:64 | clamping a clamped width changes nothing, for every maximum |
| CodeSidebar.ClampMonotone | app/Editor/components/CodeSidebar.tsx:64 | dragging further never shrinks the panel |
| CodeSidebar.Segments | app/Editor/components/CodeSidebar.tsx:627-632 | the split pieces are kept in order, and exactly the odd-indexed ones are marked |
| CodeSidebar.CodeLabelText | app/Editor/components/CodeSidebar.tsx:643-646 | the label is "Code Block" exactly when no language follows the fence |
| CodeSidebar.ClassifyRoundTrip | app/Editor/components/CodeSidebar.tsx:613-666 | the ordered rules lose nothing: the line can be rebuilt from its rendering for every line that is not blank |
| CodeSidebar.SpacerIffBlank | app/Editor/components/CodeSidebar.tsx:661-663 | a line renders as a spacer exactly when it is blank |
| CodeSidebar.EmphasisPieces | app/Editor/components/CodeSidebar.tsx:626-634 | the pieces of a "**" line contain no "**" and the bold ones are those at odd positions |
| CodeSidebar.LineCountIsNewlines | app/Editor/components/CodeSidebar.tsx:692 | the line count is the number of '\n' plus one |
| CodeSidebar.Gutter | app/Editor/components/CodeSidebar.tsx:710-714 | the gutter lists exactly 1..count |
| Text.JoinSplit | app/Editor/components/CodeSidebar.tsx:627 | joining the pieces of a split with the separator gives the line back |
| Text.SplitCountChar | app/Editor/components/CodeSidebar.tsx:692 | splitting on a character gives one more piece than its occurrences |
| Text.TrimEmptyIffBlank | app/Create/page.tsx:31 | `trim()` is empty exactly when the text is blank |
| Text.IntToStringInjective | hooks/useProject.ts:28 | distinct status codes render as distinct decimal texts |
| Json.Or | app/api/projects/generate-code/route.ts:42-56 | `a \|\| b` is a when a is truthy and b otherwise |
| CreatePage.FilledFeatures | app/Create/page.tsx:39 | a feature survives the filter exactly when it is not blank |
| CreatePage.FilledFeaturesInOrder | app/Create/page.tsx:60 | the filter distributes over concatenation and keeps a single entry exactly when it is not blank, so the survivors keep their order and their repetitions |
| CreatePage.ValidationErrors | app/Create/page.tsx:28-43 | each rule adds its own key with its fixed message exactly when it fails: blank name, description under 10 characters, all features blank; no other key |
| CreatePage.FilledFeaturesEmptyIffBlank | app/Create/page.tsx:39-41 | no feature survives exactly when every slot is blank |
| CreatePage.ValidIffNoErrors | app/Create/page.tsx:44-45 | the form validates exactly when no rule failed |
| CreatePage.RulesIndependent | app/Create/page.tsx:29-43 | the error under each key depends on its own field only |
| CreatePage.LastMatch | app/Create/page.tsx:72-76 | the stack is the default or the stack of a rule whose keyword occurs |
| CreatePage.InferTechStack | app/Create/page.tsx:71-76 | the reassigned `techStack` is the stack of the last matching keyword over the lower-cased description |
| CreatePage.TechStackPrecedence | app/Create/page.tsx:74-76 | "python" beats "vue", which beats "next"; with none of them the default React/Node.js/MongoDB stays |
| CreatePage.Submit | app/Create/page.tsx:48-85 | a submission is refused, with the validation errors, exactly when the form is invalid |
| CreatePage.SubmitValid | app/Create/page.tsx:59-85 | a valid form yields the logged project data with the trimmed name as name and product, the trimmed description, the filled features under the one key "Core Features", the inferred stack and no tags |
| CreatePage.BlankDescriptionPasses | app/Create/page.tsx:35 | ten or more blanks pass the untrimmed length rule and are then prepared as the empty description |
| CreatePage.CreateProjectForm.constructor | app/Create/page.tsx:18-24 | the form starts empty with five empty feature slots and no errors |
| CreatePage.CreateProjectForm.FeatureChange | app/Create/page.tsx:103-110 | only slot `index` changes; the five-slot length, the other slots, the name and the description are kept |
| CreatePage.CreateProjectForm.ValidateForm | app/Create/page.tsx:28-46 | the stored errors are the rule errors, and the answer is whether the form is valid |
| UseProject.ErrorMessage | hooks/useProject.ts:26-28 | the message is the body's `message` when truthy, else "HTTP " + status + ": " + statusText |
| UseProject.ErrorMessageDeterminesStatus | hooks/useProject.ts:28 | without a message, the text determines both the status and the status text |
| UseProject.RequestFailure | hooks/useProject.ts:26-28 | an unparseable body falls back to `{}` and gives the status line; a `null` body throws a TypeError |
| UseProject.DirectFailure | hooks/useProject.ts:396-398 | without the `{}` fallback an unparseable body throws a SyntaxError; otherwise as in `request` |
| UseProject.Unwrap | hooks/useProject.ts:129 | `result.data \|\| result`: the data when truthy, the body otherwise; a `null` body throws |
| UseProject.DispatchShapes | hooks/useProject.ts:327-346 | the four shapes in order: `data.projects` of a successful reply, an array body, an array `data`, else `[]`; the first shape throws, in its log line, exactly when `projects` is not an array or holds a `null` |
| UseProject.DispatchArrays | hooks/useProject.ts:334-343 | an array body, and an array `data` of an object body, are returned as they are |
| UseProject.GetAllProjectsIsArray | hooks/useProject.ts:322-367 | every path resolves to an array; a successful reply whose `projects` is not an array, or holds a `null`, falls back to the stored projects |
| UseProject.StoredProjectsMembers | hooks/useProject.ts:353-364 | a value is collected exactly when some "project-" entry parses to it |
| UseProject.StoredProjectsNone | hooks/useProject.ts:356 | entries under other keys never contribute |
| UseProject.LocalProjects | hooks/useProject.ts:353-364 | the storage loop collects the stored projects in storage order |
| UseProject.GetAllProjects | hooks/useProject.ts:322-367 | the dispatch of the reply, or the stored projects when the request failed, the reply is `null`, or the first shape's log line throws |
| UseProject.UnmappableProjectsFallBack | hooks/useProject.ts:327-330 | a successful reply with `projects` equal to `{}`, or to `[null]`, resolves to the stored projects |
| UseProject.SeedMindmap | hooks/useProject.ts:183-233 | the synthesised mind map has 4 nodes and 3 edges |
| UseProject.SeedMindmapIsChain | hooks/useProject.ts:184-232 | the nodes are start-1, task-1, milestone-1 and end-1, and edge k links node k to node k + 1 |
| UseProject.SeedTaskTitle | hooks/useProject.ts:199 | the task title is `features['Core Features']?.[0] \|\| 'Main Feature'`: the first entry when truthy, and "Main Feature" when that entry is falsy, the list is empty, or the list is missing or `null` |
| UseProject.WithMindmap | hooks/useProject.ts:178-234 | a `null` project throws a TypeError; a project with a truthy mindmap is returned as it is; without one it throws exactly when `features` is missing or `null`, and otherwise gains the synthesised map built from its name and first core feature under "mindmap" |
| UseProject.WithMindmapKeepsMembers | hooks/useProject.ts:182-234 | a project without a mind map gains exactly the synthesised map of its own name and first core feature, and keeps every other member |
| UseProject.MockIdIgnoresBackend | hooks/useProject.ts:172-267 | a "mock-project-" id is answered without the backend |
| UseProject.BackendIdIgnoresStorage | hooks/useProject.ts:270-304 | any other id never reads storage and always succeeds, with the unwrapped reply or the offline project |
| UseProject.StoredMindmapKept | hooks/useProject.ts:177-241 | a stored project that has a mind map is returned as stored |
| UseProject.StoredMindmapAdded | hooks/useProject.ts:177-241 | a stored project without a mind map fails with a TypeError exactly when its `features` is missing or `null`, and otherwise loads with the synthesised map |
| UseProject.MockProjectIds | hooks/useProject.ts:137-147 | the mock project's id and _id are "mock-project-" followed by the two clock readings, and its name is the submitted one |
| UseProject.CreateProjectOffline | hooks/useProject.ts:114-154 | creation always reports success; a reply that is not `null` gives `result.data \|\| result`; a failed request or a `null` reply gives the mock project, whose id is a mock id, whose name is the form's, and whose id equals _id exactly when the two clock readings agree |
| UseProject.UpdateProject | hooks/useProject.ts:396-404 | the update succeeds exactly when a response came, is ok and has a JSON body, and then returns that body |
| UseProject.DeleteProject | hooks/useProject.ts:430-436 | the delete succeeds, with true, exactly when a response came and is ok |
| UseProject.FailureMessages | hooks/useProject.ts:396-398 | a failed update or delete records the body's message, or the status line |
| GenerateCodeRoute.ValidationIff | app/api/projects/generate-code/route.ts:17-25 | the 400 answer comes exactly when nodeTitle or nodeDescription is falsy, whatever the backend does |
| GenerateCodeRoute.ForwardedNodeType | app/api/projects/generate-code/route.ts:42 | nodeType is forwarded when truthy and is 'component' otherwise |
| GenerateCodeRoute.ForwardedContextDefaults | app/api/projects/generate-code/route.ts:43-49 | the context defaults are 'Web Application', '', {}, the four-item stack and 'medium'; a truthy name is forwarded |
| GenerateCodeRoute.IncludeCommentsAlwaysOn | app/api/projects/generate-code/route.ts:50-56 | includeComments is always truthy (true unless another truthy value came); includeTests defaults to false; framework, language and styling default to nextjs, typescript and tailwind |
| GenerateCodeRoute.BackendErrorReported | app/api/projects/generate-code/route.ts:60-72 | a backend error keeps its status and reports `error`, else `message`, else 'Backend request failed', and `details`, else 'Unknown backend error', with success false |
| GenerateCodeRoute.InvalidStructureReported | app/api/projects/generate-code/route.ts:83-93 | an ok reply without success, data or data.files gets the 500 "Invalid response from backend" |
| GenerateCodeRoute.PickFile | app/api/projects/generate-code/route.ts:106-114 | a returned file carries exactly those of its seven known members that are present, with their values |
| GenerateCodeRoute.FileLines | app/api/projects/generate-code/route.ts:126-127 | counting throws exactly for a `null` file or a content that is not a string, `undefined` or `null` |
| GenerateCodeRoute.TotalLinesCount | app/api/projects/generate-code/route.ts:126-127 | totalLines is the newlines of the text contents plus the number of files with a text content |
| GenerateCodeRoute.SuccessShape | app/api/projects/generate-code/route.ts:103-130 | a success is 200 with `success: true`, the files in number and order, each picked, filesGenerated their number, totalLines their line count and timestamp the time stamp |
| TaskNode.StatusColor | app/Editor/components/TaskNode.tsx:41-47 | completed is green, in_progress blue, and grey exactly for every other status |
| TaskNode.PriorityColor | app/Editor/components/TaskNode.tsx:49-56 | critical is red, high orange, medium yellow, and grey exactly for every other priority |
| TaskNode.MenuColoursDistinct | app/Editor/components/TaskNode.tsx:41-56 | among the menu choices, only the lowest shares a colour with another |
| TaskNode.SaveUpdateApplied | app/Editor/components/TaskNode.tsx:23-29 | the save update carries title and description only, and applied to the node keeps status and priority |
| TaskNode.MenuUpdateApplied | app/Editor/components/TaskNode.tsx:31-39 | a status change carries and changes the status alone, a priority change the priority alone |
| TaskNode.TaskNodeState.constructor | app/Editor/components/TaskNode.tsx:18-21 | not editing, menu closed, drafts taken from the node, nothing sent |
| TaskNode.TaskNodeState.ChangeTitle | app/Editor/components/TaskNode.tsx:78 | typing sets the title draft and nothing else |
| TaskNode.TaskNodeState.ChangeDescription | app/Editor/components/TaskNode.tsx:190 | typing sets the description draft and nothing else |
| TaskNode.TaskNodeState.Save | app/Editor/components/TaskNode.tsx:23-29 | sends exactly {title: draft, description: draft} and leaves edit mode |
| TaskNode.TaskNodeState.Cancel | app/Editor/components/TaskNode.tsx:197 | leaves edit mode, sends nothing, resets both drafts to the node's values |
| TaskNode.TaskNodeState.StatusChange | app/Editor/components/TaskNode.tsx:31-34 | sends {status} alone and closes the menu |
| TaskNode.TaskNodeState.PriorityChange | app/Editor/components/TaskNode.tsx:36-39 | sends {priority} alone and closes the menu |
| TaskNode.TaskNodeState.ToggleMenu | app/Editor/components/TaskNode.tsx:90-93 | flips the menu and nothing else |
| TaskNode.TaskNodeState.EditNode | app/Editor/components/TaskNode.tsx:105-108 | enters edit mode and closes the menu |
| TaskNode.TaskNodeState.Delete | app/Editor/components/TaskNode.tsx:157-161 | calls onDelete once and closes the menu |
| TaskNode.EditThenCancel | app/Editor/components/TaskNode.tsx:197 | editing then cancelling sends nothing and leaves the drafts equal to the node |
| TaskNode.EditThenSave | app/Editor/components/TaskNode.tsx:23-29 | editing then saving sends one update that sets exactly the typed title and description |
| FaqSection.Toggled | components/faq-section.tsx:84-92 | the toggled index flips its membership and every other index keeps its own |
| FaqSection.ToggleTwice | components/faq-section.tsx:84-92 | toggling the same index twice restores the set |
| FaqSection.TogglesCommute | components/faq-section.tsx:84-92 | toggles of different indices commute |
| FaqSection.Faq.constructor | components/faq-section.tsx:83 | initially no item is open |
| FaqSection.Faq.ToggleItem | components/faq-section.tsx:84-92 | the stored set is the toggled copy, so the item's open state flips |
| FaqSection.OpenTwoCloseOne | components/faq-section.tsx:83-92 | from a fresh section, toggling one item twice closes everything, and toggling two items opens exactly those two |

## Left out

- Rendering, styling, the injected style sheet and the presentational components (start, end and milestone nodes, header, footer, landing-page decorations): they hold no logic beyond the lookups modelled.
- `fetch`, the API client transport, `NextRequest`/`NextResponse`, the backend and the AI services: their replies are input datatypes (`Reply`, `Response`, `BackendReply`).
- `localStorage`: modelled as a list of entries and a looked-up item passed in; `JSON.parse` appears only as the parsed value or as a parse failure.
- Clipboard writes, Blob and URL downloads, `setTimeout` timers, the staggered "download all", and the copy-success flags: the model states the text that would be written.
- Text.ToLower: lower-cases ASCII letters only, where `toLowerCase` maps every Unicode letter; only U+0130 and U+212A lower to ASCII letters (i and k), and neither occurs in the keywords "next", "vue" and "python", so the inferred tech stack is the same.
- `Date.now()` and `toISOString()`: clock readings and time stamps are parameters.
- UseProject.SampleProject, UseProject.OfflineProject and UseProject.MockProject take one time stamp for both `createdAt` and `updatedAt`, where the source calls `new Date().toISOString()` twice; the two readings can differ by a millisecond, and no stated property depends on them.
- Floating point: `window.innerWidth * 0.7` and every JSON number are integers here, and `ClampWidth` takes the current maximum as an argument.
- The graph library calls `applyNodeChanges`, `applyEdgeChanges` and `addEdge`: these are foreign code, so dragging and user-drawn edges are not modelled.
- The `onUpdate`/`onDelete` callbacks that canvas nodes carry: they are closures over the node id and are not data.
- Authentication, the session e-mail header, and the sign-in route: session plumbing.
- `generateMindmap` of the project hook: a plain pass-through of a backend call.
- CreatePage.Submit: the create page only logs the prepared record, waits on a two-second timer and navigates to `mock-project-` followed by a clock reading; the record is neither sent nor stored, so the model stops at the prepared record and leaves out the timer and the navigation.
- CreatePage.ValidationErrors: the description rule compares JavaScript's `length`, which counts UTF-16 code units, while the model counts characters (Unicode scalar values); a description of five emoji outside the Basic Multilingual Plane has length 10 in the source and 5 here, so the model rejects it where the source accepts it.
- The body `createProject` forwards to the backend: it is built from the submitted record with constants and sent over the network, and only the reply is modelled.
- `lib/project-utils.ts` is not part of this model; the mind-map node is defined from the interface in `MindMapCanvas.tsx`.
- Engine error texts: a `TypeError`, a `SyntaxError` or a failed request carries a message the JavaScript engine writes, and the model only names the kind.
- Canvas.ChainOrder: the comparator as written has no defined order for two start nodes or two end nodes; the model uses the stable partition, which the engine also gives when there is at most one start and one end node.
- CreatePage.CreateProjectForm.FeatureChange: requires an index below 5, because the form renders exactly five feature inputs and no other caller exists.
- TaskNode.TaskNodeState.StatusChange: requires one of the three menu statuses, because those are the only buttons that call it; `TaskNode.TaskNodeState.PriorityChange` likewise takes one of the four priorities.
- GenerateCodeRoute.Success: the echoed `summary`, `instructions`, `dependencies`, `nodeId`, `nodeTitle`, `nodeType` and the provider metadata are copied but not stated in `SuccessShape`.

## Findings

| source | as written | input that shows it | evidently intended | confidence | as-written member | corrected member |
|---|---|---|---|---|---|---|
| app/Editor/components/MindMapCanvas.tsx:118-124 | the comparator returns -1 whenever its first argument is a start node and 1 whenever it is an end node, so for two start nodes a and b it says a < b and b < a | two start nodes a and b: compare(a, b) = compare(b, a) = -1 | start nodes first and end nodes last, each group in input order | not executed | Canvas.CompareInconsistent | Canvas.ChainOrderIsPartition |
