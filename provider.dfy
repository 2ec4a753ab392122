/** `EntrTaskProvider`: the `type` filter of `resolveTask` and the cache of
    tasks that `getTask` consults, keyed by `equals` on definitions. */
module TaskProvider {
  import opened Wrappers
  import opened Definitions

  /** A task handed to the host: its definition object and its label. */
  class Task {
    const definition: TaskDefinition
    const name: string

    /** `new vscode.Task(definition, ..., name, ...)` */
    constructor (definition: TaskDefinition, name: string)
      ensures this.definition == definition && this.name == name
    {
      this.definition := definition;
      this.name := name;
    }
  }

  /** `definition.name ?? \`entr: ${definition.targetTask}\``: a present
      name wins, even an empty one; otherwise the label is "entr: " and the
      target converted to a string, "undefined" when it is missing. */
  function Label(d: Definition): (r: string)
    ensures "name" in d ==> r == ToText(d["name"])
    ensures "name" in d && d["name"].Str? ==> r == d["name"].s
    ensures "name" !in d ==> |r| >= 6 && r[..6] == "entr: "
    ensures "name" !in d && "targetTask" !in d ==> r == "entr: undefined"
    ensures "name" !in d && "targetTask" in d ==> r[6..] == ToText(d["targetTask"])
  {
    match Lookup(d, "name")
    case Some(v) => ToText(v)
    case None =>
      "entr: " + match Lookup(d, "targetTask")
        case Some(t) => ToText(t)
        case None => "undefined"
  }

  /** The position `this.tasks.find(...)` stops at: the first cached task
      whose definition `equals` `d`, or `|tasks|` when there is none. */
  function FirstEqual(tasks: seq<Task>, d: Definition): (i: nat)
    ensures i <= |tasks|
    ensures i < |tasks| ==> Equals(tasks[i].definition.props, d)
    ensures forall j :: 0 <= j < i ==> !Equals(tasks[j].definition.props, d)
  {
    if tasks == [] then 0
    else if Equals(tasks[0].definition.props, d) then 0
    else 1 + FirstEqual(tasks[1..], d)
  }

  /** `this.tasks.map(t => t.definition === definition ? newTask : t)`: the
      same length, the entries whose definition is the very object `d`
      replaced, every other entry untouched. */
  function ReplaceIdentical(tasks: seq<Task>, d: TaskDefinition, newTask: Task): (r: seq<Task>)
    ensures |r| == |tasks|
    ensures forall i :: 0 <= i < |tasks| && tasks[i].definition == d ==> r[i] == newTask
    ensures forall i :: 0 <= i < |tasks| && tasks[i].definition != d ==> r[i] == tasks[i]
  {
    if tasks == [] then []
    else [if tasks[0].definition == d then newTask else tasks[0]] + ReplaceIdentical(tasks[1..], d, newTask)
  }

  /** The lookup treats definitions that `equals` relates alike: it finds
      the same cached task for both. */
  lemma {:induction false} FirstEqualRespectsEquals(tasks: seq<Task>, d: Definition, d': Definition)
    requires Equals(d, d')
    ensures FirstEqual(tasks, d) == FirstEqual(tasks, d')
  {
    if tasks != [] {
      var c := tasks[0].definition.props;
      EqualsSymmetric(d, d');
      if Equals(c, d) {
        EqualsTransitive(c, d, d');
      } else if Equals(c, d') {
        EqualsTransitive(c, d', d);
      } else {
        FirstEqualRespectsEquals(tasks[1..], d, d');
      }
    }
  }

  /** A task appended after a cache with no match is the one found. */
  lemma {:induction false} FirstEqualAppend(tasks: seq<Task>, t: Task, d: Definition)
    requires FirstEqual(tasks, d) == |tasks|
    requires Equals(t.definition.props, d)
    ensures FirstEqual(tasks + [t], d) == |tasks|
  {
    if tasks != [] {
      assert (tasks + [t])[1..] == tasks[1..] + [t];
      FirstEqualAppend(tasks[1..], t, d);
    }
  }

  class EntrTaskProvider {
    const workspaceRoot: string
    var tasks: seq<Task>

    constructor (workspaceRoot: string)
      ensures this.workspaceRoot == workspaceRoot && tasks == []
    {
      this.workspaceRoot := workspaceRoot;
      tasks := [];
    }

    /** `getTask` as written: a cached task whose definition `equals` `d`
        is returned; otherwise a new task is made, and the cache update only
        swaps entries holding the very object `d`, so the cache never
        grows. */
    method GetTask(d: TaskDefinition) returns (t: Task)
      modifies this
      ensures var i := FirstEqual(old(tasks), d.props);
        if i < |old(tasks)| then t == old(tasks)[i] && tasks == old(tasks)
        else
          && fresh(t) && t.definition == d && t.name == Label(d.props)
          && tasks == ReplaceIdentical(old(tasks), d, t)
      ensures |tasks| == |old(tasks)|
    {
      var i := FirstEqual(tasks, d.props);
      if i < |tasks| {
        t := tasks[i];
      } else {
        t := new Task(d, Label(d.props));
        tasks := ReplaceIdentical(tasks, d, t);
      }
    }

    /** `getTask` as evidently intended: a definition with no cached match
        registers its new task, so resolving it again finds that task. */
    method GetTaskRegistering(d: TaskDefinition) returns (t: Task)
      modifies this
      ensures var i := FirstEqual(old(tasks), d.props);
        if i < |old(tasks)| then t == old(tasks)[i] && tasks == old(tasks)
        else
          && fresh(t) && t.definition == d && t.name == Label(d.props)
          && tasks == old(tasks) + [t]
      ensures FirstEqual(tasks, d.props) < |tasks| && tasks[FirstEqual(tasks, d.props)] == t
    {
      var i := FirstEqual(tasks, d.props);
      if i < |tasks| {
        t := tasks[i];
      } else {
        t := new Task(d, Label(d.props));
        EqualsReflexive(d.props);
        FirstEqualAppend(tasks, t, d.props);
        tasks := tasks + [t];
      }
    }

    /** `resolveTask`: a definition whose `type` is not "entr" gives
        `undefined` and leaves the cache alone; any other goes through the
        cache, which returns a cached match unchanged or appends a new task
        labelled by `Label`. */
    method ResolveTask(task: Task) returns (r: Option<Task>)
      modifies this
      ensures !IsEntr(task.definition.props) ==> r == None && tasks == old(tasks)
      ensures IsEntr(task.definition.props) ==>
        var i := FirstEqual(old(tasks), task.definition.props);
        if i < |old(tasks)| then r == Some(old(tasks)[i]) && tasks == old(tasks)
        else
          && r.Some? && fresh(r.value) && r.value.definition == task.definition
          && r.value.name == Label(task.definition.props)
          && tasks == old(tasks) + [r.value]
      ensures IsEntr(task.definition.props) ==>
        r.Some? && FirstEqual(tasks, task.definition.props) < |tasks|
        && tasks[FirstEqual(tasks, task.definition.props)] == r.value
    {
      if !IsEntr(task.definition.props) {
        return None;
      }
      var t := GetTaskRegistering(task.definition);
      r := Some(t);
    }
  }

  /** Two resolutions of the very same definition with `getTask` as
      written give two different tasks: the cache starts empty and never
      grows, so nothing is ever reused. */
  method ResolveTwiceAsWritten(d: TaskDefinition) returns (first: Task, second: Task)
    ensures first != second
  {
    var provider := new EntrTaskProvider("");
    first := provider.GetTask(d);
    second := provider.GetTask(d);
  }

  /** With registration, resolving a definition and then a second one
      gives the same task exactly when the two are related by `equals`. */
  method ResolveTwiceRegistering(d: TaskDefinition, d': TaskDefinition) returns (first: Task, second: Task)
    ensures first == second <==> Equals(d.props, d'.props)
  {
    var provider := new EntrTaskProvider("");
    first := provider.GetTaskRegistering(d);
    if Equals(d.props, d'.props) {
      FirstEqualRespectsEquals(provider.tasks, d.props, d'.props);
    }
    second := provider.GetTaskRegistering(d');
  }
}
