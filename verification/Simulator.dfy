/** The cluster simulator (wca/scheduler/cluster_simulator.py) driven by an arbitrary scheduling
    algorithm, and the safety of node capacities over whole runs. */
module Simulator {
  import opened Dicts
  import opened ResourceVectors
  import opened Accounting
  import opened Ordering

  // ----- Values -----

  /** A task as other components see it at one moment. */
  datatype TaskView = TaskView(name: string, requested: Vector, duration: Option<nat>,
                               assignment: Option<Node>, nodeName: Option<string>, lifeTime: nat)

  datatype HostPriority = HostPriority(host: string, score: int)

  /** A scheduling algorithm: what it answers may depend on anything the simulator holds. */
  datatype Algorithm = Algorithm(
    failed: (seq<TaskView>, TaskView) -> set<string>,
    prioritize: (seq<TaskView>, TaskView, seq<string>) -> seq<HostPriority>,
    reschedule: seq<TaskView> -> seq<string>)

  /** The fixed part of a simulation; `dims` are the resources its nodes have. */
  datatype Config = Config(nodes: seq<Node>, dims: set<ResourceType>, allowRough: bool, retry: bool)

  datatype State = State(tasks: seq<TaskView>, rough: map<Node, nat>)

  /** What the run of one operation leaves: a failed assertion stops it midway. */
  datatype Outcome = Done(state: State, count: nat) | Crashed(state: State)

  datatype Reply = NoNode | Chosen(node: Node) | Unknown

  ghost predicate GoodTask(cfg: Config, t: TaskView) {
    && t.requested.Keys == cfg.dims
    && (t.assignment.Some? ==> t.assignment.value in cfg.nodes)
  }

  /** Every node and every task speak of the same resources. */
  ghost predicate WellFormed(cfg: Config, tasks: seq<TaskView>) {
    && (forall n :: n in cfg.nodes ==> n.initial.Keys == cfg.dims && Capacity(n.initial))
    && (forall i :: 0 <= i < |tasks| ==> GoodTask(cfg, tasks[i]))
  }

  ghost predicate GoodState(cfg: Config, s: State) {
    && WellFormed(cfg, s.tasks)
    && (forall n :: n in cfg.nodes ==> n in s.rough)
  }

  // ----- Node accounting -----

  function RequestsOn(node: Node, tasks: seq<TaskView>): (r: seq<Vector>)
    ensures forall k :: 0 <= k < |r| ==> exists i :: 0 <= i < |tasks| && tasks[i].requested == r[k]
  {
    if tasks == [] then []
    else
      var last := tasks[|tasks| - 1];
      var rest := RequestsOn(node, tasks[..|tasks| - 1]);
      if last.assignment == Some(node) then rest + [last.requested] else rest
  }

  ghost predicate Compatible(node: Node, tasks: seq<TaskView>) {
    Capacity(node.initial) && forall i :: 0 <= i < |tasks| ==> tasks[i].requested.Keys == node.initial.Keys
  }

  function Unassigned(node: Node, tasks: seq<TaskView>): (r: Vector)
    requires Compatible(node, tasks)
    ensures r.Keys == node.initial.Keys
  {
    SubtractAll(node.initial, RequestsOn(node, tasks), NodeRatio(node))
  }

  predicate ValidAssignment(node: Node, tasks: seq<TaskView>, task: TaskView)
    requires Compatible(node, tasks) && task.requested.Keys == node.initial.Keys
  {
    Acceptable(SubtractAep(Unassigned(node, tasks), task.requested, NodeRatio(node)))
  }

  // ----- One operation after another -----

  function FindNodes(nodes: seq<Node>, name: string): (r: seq<Node>)
    ensures forall n :: n in r ==> n in nodes && n.name == name
  {
    if nodes == [] then []
    else (if nodes[0].name == name then [nodes[0]] else []) + FindNodes(nodes[1..], name)
  }

  /** `get_node_by_name`: None when its assertion fails. */
  function NodeByName(nodes: seq<Node>, name: string): (r: Option<Node>)
    ensures r.Some? ==> r.value in nodes && r.value.name == name
  {
    var found := FindNodes(nodes, name);
    if |found| == 1 then Some(found[0]) else None
  }

  function NodeNames(nodes: seq<Node>): (r: seq<string>)
    ensures |r| == |nodes| && forall i :: 0 <= i < |r| ==> r[i] == nodes[i].name
  {
    seq(|nodes|, i requires 0 <= i < |nodes| => nodes[i].name)
  }

  function Without(names: seq<string>, failed: set<string>): (r: seq<string>)
    ensures forall n :: n in r ==> n in names && n !in failed
  {
    if names == [] then []
    else (if names[0] in failed then [] else [names[0]]) + Without(names[1..], failed)
  }

  function CallScheduler(cfg: Config, alg: Algorithm, tasks: seq<TaskView>, task: TaskView): (r: Reply)
    ensures r.Chosen? ==> r.node in cfg.nodes
  {
    var filtered := Without(NodeNames(cfg.nodes), alg.failed(tasks, task));
    var priorities := alg.prioritize(tasks, task, filtered);
    if priorities == [] then NoNode
    else
      var best := priorities[FirstMax(priorities, (p: HostPriority) => p.score)].host;
      match NodeByName(cfg.nodes, best)
      case Some(node) => Chosen(node)
      case None => Unknown
  }

  /** `perform_assignment` of the `i`-th task. */
  function Assigned(cfg: Config, s: State, i: nat, node: Node): (r: (State, bool))
    requires GoodState(cfg, s) && i < |s.tasks| && node in cfg.nodes
    ensures GoodState(cfg, r.0) && |r.0.tasks| == |s.tasks|
  {
    var fits := ValidAssignment(node, s.tasks, s.tasks[i]);
    if fits || cfg.allowRough then
      (State(s.tasks[i := s.tasks[i].(assignment := Some(node))],
             if fits then s.rough else s.rough[node := s.rough[node] + 1]), true)
    else (s, false)
  }

  ghost predicate Below(ids: seq<nat>, n: nat) {
    forall k :: 0 <= k < |ids| ==> ids[k] < n
  }

  /** Scheduling and binding the `i`-th task. */
  function AssignOne(cfg: Config, alg: Algorithm, s: State, i: nat): (r: Outcome)
    requires GoodState(cfg, s) && i < |s.tasks|
    ensures GoodState(cfg, r.state) && |r.state.tasks| == |s.tasks|
  {
    match CallScheduler(cfg, alg, s.tasks, s.tasks[i])
    case Unknown => Crashed(s)
    case NoNode => Done(s, 0)
    case Chosen(node) =>
      var (s', ok) := Assigned(cfg, s, i, node);
      Done(s', if ok then 1 else 0)
  }

  function Counted(o: Outcome, n: nat): Outcome {
    match o
    case Done(s, m) => Done(s, m + n)
    case Crashed(s) => o
  }

  /** Scheduling the tasks `ids[k..]` one after the other. */
  function AssignEach(cfg: Config, alg: Algorithm, s: State, ids: seq<nat>, k: nat := 0): (r: Outcome)
    requires GoodState(cfg, s) && Below(ids, |s.tasks|) && k <= |ids|
    ensures GoodState(cfg, r.state) && |r.state.tasks| == |s.tasks|
    decreases |ids| - k
  {
    if k == |ids| then Done(s, 0)
    else
      match AssignOne(cfg, alg, s, ids[k])
      case Crashed(s') => Crashed(s')
      case Done(s', n) => Counted(AssignEach(cfg, alg, s', ids, k + 1), n)
  }

  function IndicesNamed(tasks: seq<TaskView>, name: string): (r: seq<nat>)
    ensures forall k :: 0 <= k < |r| ==> r[k] < |tasks| && tasks[r[k]].name == name
  {
    if tasks == [] then []
    else IndicesNamed(tasks[..|tasks| - 1], name) + if tasks[|tasks| - 1].name == name then [|tasks| - 1] else []
  }

  function Unassigning(s: State, i: nat): State
    requires i < |s.tasks|
  {
    s.(tasks := s.tasks[i := s.tasks[i].(assignment := None)])
  }

  /** Unassigns the named tasks; an unknown or ambiguous name stops the run. */
  function UnassignEach(cfg: Config, s: State, names: seq<string>, k: nat := 0): (r: Outcome)
    requires GoodState(cfg, s) && k <= |names|
    ensures GoodState(cfg, r.state) && |r.state.tasks| == |s.tasks|
    decreases |names| - k
  {
    if k == |names| then Done(s, 0)
    else
      var found := IndicesNamed(s.tasks, names[k]);
      if |found| != 1 then Crashed(s)
      else
        UnassignEach(cfg, Unassigning(s, found[0]), names, k + 1)
  }

  function Updated(t: TaskView): TaskView {
    if t.assignment.None? then t
    else
      var older := t.(lifeTime := t.lifeTime + 1);
      if t.duration.Some? && older.lifeTime > t.duration.value then older.(assignment := None) else older
  }

  function AllUpdated(tasks: seq<TaskView>): (r: seq<TaskView>)
    ensures |r| == |tasks| && forall i :: 0 <= i < |r| ==> r[i] == Updated(tasks[i])
  {
    seq(|tasks|, i requires 0 <= i < |tasks| => Updated(tasks[i]))
  }

  function IndicesUnassigned(tasks: seq<TaskView>): (r: seq<nat>)
    ensures forall k :: 0 <= k < |r| ==> r[k] < |tasks| && tasks[r[k]].assignment.None?
    ensures NoDup(r)
  {
    if tasks == [] then []
    else IndicesUnassigned(tasks[..|tasks| - 1]) + if tasks[|tasks| - 1].assignment.None? then [|tasks| - 1] else []
  }

  ghost predicate GoodNewTasks(cfg: Config, newTasks: seq<TaskView>) {
    forall i :: 0 <= i < |newTasks| ==> GoodTask(cfg, newTasks[i])
  }

  /** Appending one new task; one with a node name is bound to that node, unless it is unknown. */
  function AddOne(cfg: Config, s: State, t: TaskView): (r: Outcome)
    requires GoodState(cfg, s) && GoodTask(cfg, t)
    ensures GoodState(cfg, r.state) && |r.state.tasks| == |s.tasks| + 1
  {
    if t.nodeName.None? then Done(s.(tasks := s.tasks + [t]), 1)
    else
      match NodeByName(cfg.nodes, t.nodeName.value)
      case None => Crashed(s.(tasks := s.tasks + [t]))
      case Some(node) => Done(s.(tasks := s.tasks + [t.(assignment := Some(node), nodeName := None)]), 0)
  }

  function LeftToSchedule(ids: seq<nat>, n: nat, i: nat): seq<nat> {
    if n == 1 then ids + [i] else ids
  }

  /** Appending `newTasks[k..]`; the indices of those without a node name are added to `ids`, the tasks
      left to schedule. */
  function AddEach(cfg: Config, s: State, newTasks: seq<TaskView>, k: nat := 0, ids: seq<nat> := []): (r: (Outcome, seq<nat>))
    requires GoodState(cfg, s) && GoodNewTasks(cfg, newTasks) && k <= |newTasks| && Below(ids, |s.tasks|)
    ensures GoodState(cfg, r.0.state) && Below(r.1, |r.0.state.tasks|)
    ensures |r.0.state.tasks| >= |s.tasks|
    decreases |newTasks| - k
  {
    if k == |newTasks| then (Done(s, 0), ids)
    else
      match AddOne(cfg, s, newTasks[k])
      case Crashed(s') => (Crashed(s'), ids)
      case Done(s', n) => AddEach(cfg, s', newTasks, k + 1, LeftToSchedule(ids, n, |s.tasks|))
  }

  function Aged(cfg: Config, s: State): (r: State)
    requires GoodState(cfg, s)
    ensures GoodState(cfg, r)
  {
    var tasks := AllUpdated(s.tasks);
    State(tasks, s.rough)
  }

  /** Scheduling or, when there is nothing to schedule and nothing new, rescheduling. */
  function Scheduled(cfg: Config, alg: Algorithm, s: State, arrived: seq<nat>, quiet: bool): (r: Outcome)
    requires GoodState(cfg, s) && Below(arrived, |s.tasks|)
    ensures GoodState(cfg, r.state)
  {
    var ids := if arrived == [] && cfg.retry then IndicesUnassigned(s.tasks) else arrived;
    if ids != [] then AssignEach(cfg, alg, s, ids)
    else if quiet then UnassignEach(cfg, s, alg.reschedule(s.tasks))
    else Done(s, 0)
  }

  function Iterated(cfg: Config, alg: Algorithm, s: State, newTasks: seq<TaskView>): (r: Outcome)
    requires GoodState(cfg, s) && GoodNewTasks(cfg, newTasks)
    ensures GoodState(cfg, r.state)
  {
    var (added, arrived) := AddEach(cfg, s, newTasks);
    if added.Crashed? then added
    else
      match Scheduled(cfg, alg, added.state, arrived, newTasks == [])
      case Crashed(s') => Crashed(s')
      case Done(s', n) => Done(Aged(cfg, s'), n)
  }
}
