/** The simulator's objects: tasks whose assignment and age change in place, and the cluster holding
    them. Every method is proved against the value-level specification in module Simulator. */
module ClusterSimulator {
  import opened Dicts
  import opened ResourceVectors
  import opened Accounting
  import opened Simulator
  import opened SimulatorSafety

  class Task {
    const name: string
    const requested: Vector
    const duration: Option<nat>
    var assignment: Option<Node>
    var nodeName: Option<string>
    var lifeTime: nat

    constructor (name: string, requested: Vector, duration: Option<nat>, assignment: Option<Node>, nodeName: Option<string>)
      ensures View() == TaskView(name, requested, duration, assignment, nodeName, 0)
    {
      this.name, this.requested, this.duration := name, requested, duration;
      this.assignment, this.nodeName, this.lifeTime := assignment, nodeName, 0;
    }

    function View(): TaskView
      reads this
    {
      TaskView(name, requested, duration, assignment, nodeName, lifeTime)
    }

    method Update()
      modifies this
      ensures View() == Updated(old(View()))
    {
      if assignment.Some? {
        lifeTime := lifeTime + 1;
        if duration.Some? && lifeTime > duration.value {
          assignment := None;
        }
      }
    }
  }

  /** `views` is what the task objects hold, one view per object. */
  ghost predicate Shows(tasks: seq<Task>, views: seq<TaskView>)
    reads tasks
  {
    |tasks| == |views| && forall i :: 0 <= i < |tasks| ==> tasks[i].View() == views[i]
  }

  method Snapshot(tasks: seq<Task>, ghost views: seq<TaskView>) returns (r: seq<TaskView>)
    requires Shows(tasks, views)
    ensures r == views
  {
    r := [];
    for i := 0 to |tasks|
      invariant r == views[..i]
    {
      r := r + [tasks[i].View()];
    }
  }

  /** `Node._calculate_unassigned`: one in-place subtraction per task on the node. */
  method CalculateUnassigned(node: Node, tasks: seq<Task>, ghost views: seq<TaskView>) returns (unassigned: Resources)
    requires Shows(tasks, views) && Compatible(node, views)
    ensures fresh(unassigned) && unassigned.data == Unassigned(node, views)
  {
    hide SubtractAll;
    SubtractNothing(node);
    unassigned := new Resources(node.initial);
    ghost var requests: seq<Vector> := [];
    for i := 0 to |tasks|
      invariant fresh(unassigned) && Shows(tasks, views)
      invariant requests == RequestsOn(node, views[..i])
      invariant forall k :: 0 <= k < |requests| ==> requests[k].Keys == node.initial.Keys
      invariant unassigned.data == SubtractAll(node.initial, requests, NodeRatio(node))
    {
      assert views[..i + 1][..i] == views[..i];
      if tasks[i].assignment == Some(node) {
        SubtractAllNext(node.initial, requests, tasks[i].requested, NodeRatio(node));
        requests := requests + [tasks[i].requested];
        unassigned.SubtractAepAware(tasks[i].requested, NodeRatio(node));
      }
    }
    assert views[..|tasks|] == views;
  }

  lemma SubtractNothing(node: Node)
    requires Capacity(node.initial)
    ensures SubtractAll(node.initial, [], NodeRatio(node)) == node.initial
  {
  }

  method ValidateAssignment(node: Node, tasks: seq<Task>, newTask: Task, ghost views: seq<TaskView>) returns (fits: bool)
    requires Shows(tasks, views) && Compatible(node, views) && newTask.requested.Keys == node.initial.Keys
    ensures fits == ValidAssignment(node, views, newTask.View())
  {
    var unassigned := CalculateUnassigned(node, tasks, views);
    unassigned.SubtractAepAware(newTask.requested, NodeRatio(node));
    fits := unassigned.AsBool();
  }

  class ClusterSimulator {
    var tasks: seq<Task>
    var rough: map<Node, nat>
    const nodes: seq<Node>
    const dims: set<ResourceType>
    const allowRough: bool
    const retry: bool
    /** The state of the cluster as a value, and its task objects. */
    ghost var contents: State
    ghost var members: set<Task>

    function Settings(): Config { Config(nodes, dims, allowRough, retry) }

    ghost predicate Valid()
      reads this, members
    {
      && (forall i :: 0 <= i < |tasks| ==> tasks[i] in members)
      && NoDup(tasks)
      && Shows(tasks, contents.tasks)
      && rough == contents.rough
      && GoodState(Settings(), contents)
    }

    constructor (nodes: seq<Node>, dims: set<ResourceType>, allowRough: bool, retry: bool)
      requires WellFormed(Config(nodes, dims, allowRough, retry), [])
      ensures Valid() && members == {}
      ensures Settings() == Config(nodes, dims, allowRough, retry) && contents == Initial(Settings())
    {
      this.nodes, this.dims, this.allowRough, this.retry := nodes, dims, allowRough, retry;
      this.tasks := [];
      this.rough := map n | n in nodes :: 0;
      this.contents, this.members := State([], map n | n in nodes :: 0), {};
    }

    /** What an operation leaves: `ok` is false when an assertion failed in it. */
    ghost function Left(ok: bool, count: nat): Outcome
      reads this
    {
      if ok then Done(contents, count) else Crashed(contents)
    }

    method PerformAssignment(task: Task, node: Node, ghost i: nat) returns (done: bool)
      requires Valid() && i < |tasks| && tasks[i] == task && node in nodes
      modifies this`rough, this`contents, task
      ensures Valid()
      ensures (contents, done) == Assigned(Settings(), old(contents), i, node)
    {
      var fits := ValidateAssignment(node, tasks, task, contents.tasks);
      done := fits || allowRough;
      if done {
        Bind(task, node, fits, i);
      }
    }

    /** The two assignments of `perform_assignment` once the decision is taken. */
    method Bind(task: Task, node: Node, fits: bool, ghost i: nat)
      requires Valid() && i < |tasks| && tasks[i] == task && node in nodes
      modifies this`rough, this`contents, task
      ensures Valid()
      ensures contents == State(old(contents).tasks[i := old(contents).tasks[i].(assignment := Some(node))],
                                if fits then old(rough) else old(rough)[node := old(rough)[node] + 1])
    {
      task.assignment := Some(node);
      if !fits {
        rough := rough[node := rough[node] + 1];
      }
      contents := State(contents.tasks[i := contents.tasks[i].(assignment := Some(node))], rough);
    }

    method AssignTask(alg: Algorithm, task: Task, ghost i: nat) returns (count: nat, ok: bool)
      requires Valid() && i < |tasks| && tasks[i] == task
      modifies this`rough, this`contents, task
      ensures Valid()
      ensures Left(ok, count) == AssignOne(Settings(), alg, old(contents), i)
    {
      count, ok := 0, true;
      var views := Snapshot(tasks, contents.tasks);
      match CallScheduler(Settings(), alg, views, task.View())
      case Unknown => ok := false;
      case NoNode =>
      case Chosen(node) =>
        var done := PerformAssignment(task, node, i);
        count := if done then 1 else 0;
    }

    /** The `k`-th of `ts` is the task at index `ids[k]`. */
    ghost predicate Refers(ts: seq<Task>, ids: seq<nat>)
      reads this
    {
      |ts| == |ids| && Below(ids, |tasks|) && forall k :: 0 <= k < |ts| ==> ts[k] == tasks[ids[k]]
    }

    /** The assignment loop of `iterate`. */
    method AssignTasks(alg: Algorithm, unassigned: seq<Task>, ghost ids: seq<nat>) returns (count: nat, ok: bool)
      requires Valid() && Refers(unassigned, ids)
      modifies this`rough, this`contents, members
      ensures Valid()
      ensures Left(ok, count) == AssignEach(Settings(), alg, old(contents), ids)
    {
      hide AssignOne;
      count, ok := 0, true;
      ghost var expected := AssignEach(Settings(), alg, contents, ids);
      var k := 0;
      while k < |unassigned| && ok
        invariant 0 <= k <= |unassigned| && Valid()
        invariant expected == if ok then Counted(AssignEach(Settings(), alg, contents, ids, k), count) else Crashed(contents)
      {
        var n;
        n, ok := AssignTask(alg, unassigned[k], ids[k]);
        count, k := count + n, k + 1;
      }
    }

    method GetTaskByName(name: string) returns (found: seq<Task>, ghost ids: seq<nat>)
      requires Shows(tasks, contents.tasks)
      ensures ids == IndicesNamed(contents.tasks, name) && Refers(found, ids)
    {
      found, ids := [], [];
      ghost var views := contents.tasks;
      for i := 0 to |tasks|
        invariant ids == IndicesNamed(views[..i], name) && Refers(found, ids)
      {
        assert views[..i + 1][..i] == views[..i];
        if tasks[i].name == name {
          found, ids := found + [tasks[i]], ids + [i];
        }
      }
      assert views[..|tasks|] == views;
    }

    method Unbind(task: Task, ghost i: nat)
      requires Valid() && i < |tasks| && tasks[i] == task
      modifies this`contents, task
      ensures Valid()
      ensures contents == Unassigning(old(contents), i)
    {
      task.assignment := None;
      contents := Unassigning(contents, i);
    }

    /** The unbinding loop of a rescheduling round. */
    method UnassignTasks(names: seq<string>) returns (ok: bool)
      requires Valid()
      modifies this`contents, members
      ensures Valid()
      ensures Left(ok, 0) == UnassignEach(Settings(), old(contents), names)
    {
      ok := true;
      ghost var expected := UnassignEach(Settings(), contents, names);
      for k := 0 to |names|
        invariant ok && Valid()
        invariant expected == UnassignEach(Settings(), contents, names, k)
      {
        var found, ids := GetTaskByName(names[k]);
        if |found| != 1 {
          ok := false;
          return;
        }
        Unbind(found[0], ids[0]);
      }
    }

    method UpdateTasksLife()
      requires Valid()
      modifies this`contents, members
      ensures Valid() && contents == Aged(Settings(), old(contents))
    {
      ghost var views := contents.tasks;
      for i := 0 to |tasks|
        invariant contents == old(contents)
        invariant forall j :: 0 <= j < i ==> tasks[j].View() == Updated(views[j])
        invariant forall j :: i <= j < |tasks| ==> tasks[j].View() == views[j]
      {
        tasks[i].Update();
      }
      contents := Aged(Settings(), contents);
    }

    method FindUnassigned() returns (found: seq<Task>, ghost ids: seq<nat>)
      requires Shows(tasks, contents.tasks)
      ensures ids == IndicesUnassigned(contents.tasks) && Refers(found, ids)
    {
      found, ids := [], [];
      ghost var views := contents.tasks;
      for i := 0 to |tasks|
        invariant ids == IndicesUnassigned(views[..i]) && Refers(found, ids)
      {
        assert views[..i + 1][..i] == views[..i];
        if tasks[i].assignment.None? {
          found, ids := found + [tasks[i]], ids + [i];
        }
      }
      assert views[..|tasks|] == views;
    }

    method AddTask(newTask: Task, waiting: seq<Task>, ghost ids: seq<nat>)
      returns (waiting': seq<Task>, ok: bool, ghost n: nat)
      requires Valid() && newTask !in members && GoodTask(Settings(), newTask.View()) && Refers(waiting, ids)
      modifies this`tasks, this`contents, this`members, newTask
      ensures Valid() && members == old(members) + {newTask}
      ensures Left(ok, n) == AddOne(Settings(), old(contents), old(newTask.View()))
      ensures Refers(waiting', if ok then LeftToSchedule(ids, n, |old(contents).tasks|) else ids)
    {
      ghost var after := AddOne(Settings(), contents, newTask.View());
      waiting', ok, n := waiting, true, 0;
      Append(newTask);
      if newTask.nodeName.Some? {
        var node := NodeByName(nodes, newTask.nodeName.value);
        if node.None? {
          ok := false;
        } else {
          newTask.assignment := node;
          newTask.nodeName := None;
        }
      } else {
        waiting', n := waiting + [newTask], 1;
      }
      contents := after.state;
    }

    method Append(newTask: Task)
      requires Valid() && newTask !in members
      modifies this`tasks, this`members
      ensures tasks == old(tasks) + [newTask] && members == old(members) + {newTask} && NoDup(tasks)
      ensures forall i :: 0 <= i < |tasks| ==> tasks[i] in members
    {
      tasks, members := tasks + [newTask], members + {newTask};
    }

    /** The new tasks are objects of their own, not yet in the cluster. */
    ghost predicate Acceptable(newTasks: seq<Task>, arriving: seq<TaskView>)
      reads this, newTasks
    {
      && NoDup(newTasks)
      && (forall i :: 0 <= i < |newTasks| ==> newTasks[i] !in members)
      && Shows(newTasks, arriving)
      && GoodNewTasks(Settings(), arriving)
    }

    /** The loop over new tasks in `iterate`. */
    method AddTasks(newTasks: seq<Task>, ghost arriving: seq<TaskView>)
      returns (unassigned: seq<Task>, ok: bool, ghost ids: seq<nat>)
      requires Valid() && Acceptable(newTasks, arriving)
      modifies this`tasks, this`contents, this`members, newTasks
      ensures Valid() && Refers(unassigned, ids)
      ensures forall t :: t in members ==> t in old(members) || t in newTasks
      ensures (Left(ok, 0), ids) == AddEach(Settings(), old(contents), arriving)
    {
      unassigned, ok, ids := [], true, [];
      ghost var expected := AddEach(Settings(), contents, arriving);
      var k := 0;
      while k < |newTasks| && ok
        invariant 0 <= k <= |newTasks|
        invariant Valid() && Refers(unassigned, ids)
        invariant forall t :: t in members ==> t in old(members) || t in newTasks
        invariant forall j :: k <= j < |newTasks| ==> newTasks[j] !in members && newTasks[j].View() == arriving[j]
        invariant expected == if ok then AddEach(Settings(), contents, arriving, k, ids) else (Crashed(contents), ids)
      {
        ghost var n;
        ghost var i := |contents.tasks|;
        unassigned, ok, n := AddTask(newTasks[k], unassigned, ids);
        ids := if ok then LeftToSchedule(ids, n, i) else ids;
        k := k + 1;
      }
    }

    method Schedule(alg: Algorithm, arrived: seq<Task>, quiet: bool, ghost ids: seq<nat>) returns (count: nat, ok: bool)
      requires Valid() && Refers(arrived, ids)
      modifies this`rough, this`contents, members
      ensures Valid()
      ensures Left(ok, count) == Scheduled(Settings(), alg, old(contents), ids, quiet)
    {
      count, ok := 0, true;
      var unassigned := arrived;
      ghost var indices := ids;
      if unassigned == [] && retry {
        unassigned, indices := FindUnassigned();
      }
      if unassigned != [] {
        count, ok := AssignTasks(alg, unassigned, indices);
      } else if quiet {
        var views := Snapshot(tasks, contents.tasks);
        ok := UnassignTasks(alg.reschedule(views));
      }
    }

    /** One simulated step; `ok` is false when an assertion stops it. */
    method Iterate(alg: Algorithm, newTasks: seq<Task>, ghost arriving: seq<TaskView>) returns (count: nat, ok: bool)
      requires Valid() && Acceptable(newTasks, arriving)
      modifies this, members, newTasks
      ensures Valid()
      ensures Left(ok, count) == Iterated(Settings(), alg, old(contents), arriving)
    {
      count := 0;
      var unassigned;
      ghost var ids;
      unassigned, ok, ids := AddTasks(newTasks, arriving);
      if !ok { return; }
      count, ok := Schedule(alg, unassigned, newTasks == [], ids);
      if ok {
        UpdateTasksLife();
      }
    }
  }
}
