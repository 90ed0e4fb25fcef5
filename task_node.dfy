/**
 * The task node of the editor canvas: its local edit and menu state, the
 * partial updates it hands to `onUpdate`, the calls it makes to `onDelete`,
 * and the colour classes it picks for the status badge and the priority dot.
 */
module TaskNode {
  import opened Wrappers

  /** The node data the component reads; status and priority are kept as
      the strings that arrive at run time, since the colour selectors have a
      default branch for anything else. */
  datatype TaskFields = TaskFields(title: string, description: string, status: string, priority: string)

  /** A `Partial<MindMapNode>` as the component sends it: only the members
      that are `Some` are present in the object. */
  datatype TaskUpdate = TaskUpdate(
    title: Option<string>,
    description: Option<string>,
    status: Option<string>,
    priority: Option<string>)

  /** The members an update carries. */
  function Keys(u: TaskUpdate): set<string> {
    (if u.title.Some? then {"title"} else {})
    + (if u.description.Some? then {"description"} else {})
    + (if u.status.Some? then {"status"} else {})
    + (if u.priority.Some? then {"priority"} else {})
  }

  /** How the editor applies an update to a node: `{ ...node, ...updates }`. */
  function Merge(n: TaskFields, u: TaskUpdate): TaskFields {
    TaskFields(u.title.GetOr(n.title), u.description.GetOr(n.description),
               u.status.GetOr(n.status), u.priority.GetOr(n.priority))
  }

  /** The choices the status and priority menus offer. */
  const Statuses: seq<string> := ["pending", "in_progress", "completed"]
  const Priorities: seq<string> := ["low", "medium", "high", "critical"]

  const GreyBadge: string := "bg-gray-100 border-gray-300 text-gray-800"
  const GreyDot: string := "bg-gray-400"

  /** The badge classes for a status: green for completed, blue for in
      progress, grey for anything else. */
  function StatusColor(status: string): (r: string)
    ensures status == "completed" ==> r == "bg-green-100 border-green-300 text-green-800"
    ensures status == "in_progress" ==> r == "bg-blue-100 border-blue-300 text-blue-800"
    ensures r == GreyBadge <==> status != "completed" && status != "in_progress"
  {
    if status == "completed" then "bg-green-100 border-green-300 text-green-800"
    else if status == "in_progress" then "bg-blue-100 border-blue-300 text-blue-800"
    else GreyBadge
  }

  /** The dot classes for a priority: red, orange and yellow for critical,
      high and medium, grey for anything else. */
  function PriorityColor(priority: string): (r: string)
    ensures priority == "critical" ==> r == "bg-red-500"
    ensures priority == "high" ==> r == "bg-orange-500"
    ensures priority == "medium" ==> r == "bg-yellow-500"
    ensures r == GreyDot <==> priority != "critical" && priority != "high" && priority != "medium"
  {
    match priority
    case "critical" => "bg-red-500"
    case "high" => "bg-orange-500"
    case "medium" => "bg-yellow-500"
    case _ => GreyDot
  }

  /** Every menu choice gets its own badge or dot colour, except the
      lowest, which shares the grey default. */
  lemma MenuColoursDistinct(a: string, b: string)
    ensures a in Statuses && b in Statuses && a != b && StatusColor(a) == StatusColor(b)
      ==> a == "pending" || b == "pending"
    ensures a in Priorities && b in Priorities && a != b && PriorityColor(a) == PriorityColor(b)
      ==> a == "low" || b == "low"
  {
  }

  /** Saving sends the two drafts and nothing else; applied to the node it
      replaces the title and description and keeps status and priority. */
  lemma SaveUpdateApplied(n: TaskFields, title: string, description: string)
    ensures Keys(TaskUpdate(Some(title), Some(description), None, None)) == {"title", "description"}
    ensures Merge(n, TaskUpdate(Some(title), Some(description), None, None))
      == TaskFields(title, description, n.status, n.priority)
  {
  }

  /** A status change touches the status alone, a priority change the
      priority alone. */
  lemma MenuUpdateApplied(n: TaskFields, status: string, priority: string)
    ensures Keys(TaskUpdate(None, None, Some(status), None)) == {"status"}
    ensures Keys(TaskUpdate(None, None, None, Some(priority))) == {"priority"}
    ensures Merge(n, TaskUpdate(None, None, Some(status), None)) == n.(status := status)
    ensures Merge(n, TaskUpdate(None, None, None, Some(priority))) == n.(priority := priority)
  {
  }

  /** Applying the same update twice is applying it once. */
  lemma MergeIdempotent(n: TaskFields, u: TaskUpdate)
    ensures Merge(Merge(n, u), u) == Merge(n, u)
  {
  }

  /** The component's local state. `updates` and `deletes` record, in
      order, the calls it has made to `onUpdate` and `onDelete`. */
  class TaskNodeState {
    var isEditing: bool
    var editedTitle: string
    var editedDescription: string
    var showMenu: bool
    var updates: seq<TaskUpdate>
    var deletes: nat

    /** Mounting: not editing, menu closed, drafts taken from the node. */
    constructor (node: TaskFields)
      ensures !isEditing && !showMenu
      ensures editedTitle == node.title && editedDescription == node.description
      ensures updates == [] && deletes == 0
    {
      isEditing := false;
      editedTitle := node.title;
      editedDescription := node.description;
      showMenu := false;
      updates := [];
      deletes := 0;
    }

    /** Typing in the title input while editing. */
    method ChangeTitle(value: string)
      modifies this
      ensures editedTitle == value
      ensures unchanged(this`isEditing, this`editedDescription, this`showMenu, this`updates, this`deletes)
    {
      editedTitle := value;
    }

    /** Typing in the description text area while editing. */
    method ChangeDescription(value: string)
      modifies this
      ensures editedDescription == value
      ensures unchanged(this`isEditing, this`editedTitle, this`showMenu, this`updates, this`deletes)
    {
      editedDescription := value;
    }

    /** Save: sends exactly the two drafts and leaves edit mode. */
    method Save()
      modifies this
      ensures updates == old(updates) + [TaskUpdate(Some(old(editedTitle)), Some(old(editedDescription)), None, None)]
      ensures !isEditing
      ensures unchanged(this`editedTitle, this`editedDescription, this`showMenu, this`deletes)
    {
      updates := updates + [TaskUpdate(Some(editedTitle), Some(editedDescription), None, None)];
      isEditing := false;
    }

    /** Cancel: leaves edit mode, sends nothing, and puts the node's current
        title and description back into the drafts. */
    method Cancel(node: TaskFields)
      modifies this
      ensures !isEditing
      ensures editedTitle == node.title && editedDescription == node.description
      ensures unchanged(this`showMenu, this`updates, this`deletes)
    {
      isEditing := false;
      editedTitle := node.title;
      editedDescription := node.description;
    }

    /** A status chosen from the menu: sends the status alone and closes the
        menu. */
    method StatusChange(newStatus: string)
      requires newStatus in Statuses
      modifies this
      ensures updates == old(updates) + [TaskUpdate(None, None, Some(newStatus), None)]
      ensures !showMenu
      ensures unchanged(this`isEditing, this`editedTitle, this`editedDescription, this`deletes)
    {
      updates := updates + [TaskUpdate(None, None, Some(newStatus), None)];
      showMenu := false;
    }

    /** A priority chosen from the menu: sends the priority alone and closes
        the menu. */
    method PriorityChange(newPriority: string)
      requires newPriority in Priorities
      modifies this
      ensures updates == old(updates) + [TaskUpdate(None, None, None, Some(newPriority))]
      ensures !showMenu
      ensures unchanged(this`isEditing, this`editedTitle, this`editedDescription, this`deletes)
    {
      updates := updates + [TaskUpdate(None, None, None, Some(newPriority))];
      showMenu := false;
    }

    /** The menu button flips the menu. */
    method ToggleMenu()
      modifies this
      ensures showMenu == !old(showMenu)
      ensures unchanged(this`isEditing, this`editedTitle, this`editedDescription, this`updates, this`deletes)
    {
      showMenu := !showMenu;
    }

    /** "Edit Node": enters edit mode and closes the menu; the drafts are
        left as they are. */
    method EditNode()
      modifies this
      ensures isEditing && !showMenu
      ensures unchanged(this`editedTitle, this`editedDescription, this`updates, this`deletes)
    {
      isEditing := true;
      showMenu := false;
    }

    /** "Delete Node": calls `onDelete` once and closes the menu. */
    method Delete()
      modifies this
      ensures deletes == old(deletes) + 1
      ensures !showMenu
      ensures unchanged(this`isEditing, this`editedTitle, this`editedDescription, this`updates)
    {
      deletes := deletes + 1;
      showMenu := false;
    }
  }

  /** Editing and then cancelling sends nothing and leaves the drafts equal
      to the node, whatever was typed in between. */
  method EditThenCancel(node: TaskFields, title: string, description: string)
    returns (sent: seq<TaskUpdate>, draftTitle: string, draftDescription: string, editing: bool)
    ensures sent == [] && !editing
    ensures draftTitle == node.title && draftDescription == node.description
  {
    var state := new TaskNodeState(node);
    state.ToggleMenu();
    state.EditNode();
    state.ChangeTitle(title);
    state.ChangeDescription(description);
    state.Cancel(node);
    sent, draftTitle, draftDescription, editing := state.updates, state.editedTitle, state.editedDescription, state.isEditing;
  }

  /** Editing and then saving sends one update, which applied to the node
      sets exactly the typed title and description. */
  method EditThenSave(node: TaskFields, title: string, description: string)
    returns (sent: seq<TaskUpdate>, editing: bool)
    ensures |sent| == 1 && !editing
    ensures Keys(sent[0]) == {"title", "description"}
    ensures Merge(node, sent[0]) == TaskFields(title, description, node.status, node.priority)
  {
    var state := new TaskNodeState(node);
    state.ToggleMenu();
    state.EditNode();
    state.ChangeTitle(title);
    state.ChangeDescription(description);
    state.Save();
    SaveUpdateApplied(node, title, description);
    sent, editing := state.updates, state.isEditing;
  }
}
