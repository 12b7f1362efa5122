/** What a step of the cluster simulator does to each task, wca/scheduler/cluster_simulator.py: who is bound, who leaves, and
    who stays as it was. */
module SimulatorRounds {
  import opened Dicts
  import opened ResourceVectors
  import opened Accounting
  import opened Ordering
  import opened Simulator
  import opened SimulatorSafety

  // ----- Nodes by name -----

  /** The only node of that name. */
  ghost predicate OnlyNode(nodes: seq<Node>, name: string, i: nat) {
    i < |nodes| && nodes[i].name == name && forall j :: 0 <= j < |nodes| && j != i ==> nodes[j].name != name
  }

  lemma {:induction false} NoneFound(nodes: seq<Node>, name: string)
    ensures FindNodes(nodes, name) == [] <==> forall j :: 0 <= j < |nodes| ==> nodes[j].name != name
  {
    if nodes != [] {
      NoneFound(nodes[1..], name);
      assert forall j :: 0 < j < |nodes| ==> nodes[j] == nodes[1..][j - 1];
    }
  }

  lemma {:induction false} OnlyOneFound(nodes: seq<Node>, name: string, i: nat)
    requires OnlyNode(nodes, name, i)
    ensures FindNodes(nodes, name) == [nodes[i]]
  {
    NoneFound(nodes[1..], name);
    if i > 0 {
      assert OnlyNode(nodes[1..], name, i - 1);
      OnlyOneFound(nodes[1..], name, i - 1);
    }
  }

  lemma {:induction false} OnlyOneIsThere(nodes: seq<Node>, name: string) returns (i: nat)
    requires |FindNodes(nodes, name)| == 1
    ensures OnlyNode(nodes, name, i)
  {
    NoneFound(nodes[1..], name);
    assert forall j :: 0 < j < |nodes| ==> nodes[j] == nodes[1..][j - 1];
    if nodes[0].name == name {
      i := 0;
    } else {
      i := OnlyOneIsThere(nodes[1..], name);
      i := i + 1;
    }
  }

  /** A node is found by its name exactly when it is the only one of that name. */
  lemma NodeByNameIff(nodes: seq<Node>, name: string)
    ensures NodeByName(nodes, name).Some? <==> exists i :: 0 <= i < |nodes| && OnlyNode(nodes, name, i)
    ensures forall i :: 0 <= i < |nodes| && OnlyNode(nodes, name, i) ==> NodeByName(nodes, name) == Some(nodes[i])
  {
    if NodeByName(nodes, name).Some? {
      var i := OnlyOneIsThere(nodes, name);
    }
    forall i | 0 <= i < |nodes| && OnlyNode(nodes, name, i) ensures NodeByName(nodes, name) == Some(nodes[i]) {
      OnlyOneFound(nodes, name, i);
    }
  }

  // ----- call_scheduler -----

  /** What is offered to the algorithm: the names it did not fail. */
  lemma {:induction false} OfferedNames(names: seq<string>, failed: set<string>)
    ensures forall n :: n in Without(names, failed) <==> n in names && n !in failed
    ensures (forall i :: 0 <= i < |names| ==> names[i] !in failed) ==> Without(names, failed) == names
  {
    if names != [] {
      assert names == [names[0]] + names[1..];
      OfferedNames(names[1..], failed);
    }
  }

  /** The host of the answer at `k` is the first of highest score. */
  ghost predicate FirstBest(answers: seq<HostPriority>, k: nat) {
    && k < |answers|
    && (forall j :: 0 <= j < |answers| ==> answers[j].score <= answers[k].score)
    && (forall j :: 0 <= j < k ==> answers[j].score < answers[k].score)
  }

  ghost function Answers(cfg: Config, alg: Algorithm, tasks: seq<TaskView>, task: TaskView): seq<HostPriority> {
    alg.prioritize(tasks, task, Without(NodeNames(cfg.nodes), alg.failed(tasks, task)))
  }

  ghost predicate IsChoice(cfg: Config, answers: seq<HostPriority>, k: nat, i: nat) {
    FirstBest(answers, k) && OnlyNode(cfg.nodes, answers[k].host, i)
  }

  /** No answer, no node; otherwise the node that alone has the name of the first answer of highest score, and a failed
      assertion when there is no such node. */
  lemma ChosenIff(cfg: Config, alg: Algorithm, tasks: seq<TaskView>, task: TaskView)
    ensures var r, answers := CallScheduler(cfg, alg, tasks, task), Answers(cfg, alg, tasks, task);
      && (r == NoNode <==> answers == [])
      && (forall k: nat, i: nat :: IsChoice(cfg, answers, k, i) ==> r == Chosen(cfg.nodes[i]))
      && (r.Chosen? ==> exists k: nat, i: nat :: IsChoice(cfg, answers, k, i) && r.node == cfg.nodes[i])
  {
    var answers := Answers(cfg, alg, tasks, task);
    if answers != [] {
      var best := FirstMax(answers, (p: HostPriority) => p.score);
      BestIsFirst(answers, best);
      NodeByNameIff(cfg.nodes, answers[best].host);
      var r := CallScheduler(cfg, alg, tasks, task);
      if r.Chosen? {
        var i :| 0 <= i < |cfg.nodes| && OnlyNode(cfg.nodes, answers[best].host, i);
        assert IsChoice(cfg, answers, best, i);
      }
    }
  }

  lemma BestIsFirst(answers: seq<HostPriority>, best: nat)
    requires answers != [] && best == FirstMax(answers, (p: HostPriority) => p.score)
    ensures forall k: nat :: FirstBest(answers, k) <==> k == best
  {
  }

  // ----- One task -----

  /** After subtracting the task from what is left of the node, every dimension is above the tolerance. */
  ghost predicate FitsNode(cfg: Config, s: State, i: nat, node: Node)
    requires GoodState(cfg, s) && i < |s.tasks| && node in cfg.nodes
  {
    forall d :: d in cfg.dims ==> Unassigned(node, s.tasks)[d] - Charge(s.tasks[i].requested, NodeRatio(node), d) > -0.0001
  }

  /** Task `i` is on the node, and everything else is as it was. */
  ghost predicate IsBound(before: seq<TaskView>, after: seq<TaskView>, i: nat, node: Node) {
    && |after| == |before| && i < |before|
    && after[i] == before[i].(assignment := Some(node))
    && forall j :: 0 <= j < |before| && j != i ==> after[j] == before[j]
  }

  lemma FitsNodeIff(cfg: Config, s: State, i: nat, node: Node)
    requires GoodState(cfg, s) && i < |s.tasks| && node in cfg.nodes
    ensures FitsNode(cfg, s, i, node) <==> ValidAssignment(node, s.tasks, s.tasks[i])
  {
    hide Unassigned;
    hide Charge;
    hide Acceptable;
    var left := SubtractAep(Unassigned(node, s.tasks), s.tasks[i].requested, NodeRatio(node));
    AcceptableMeans(left);
    assert left.Keys == cfg.dims;
    forall d | d in cfg.dims
      ensures left[d] == Unassigned(node, s.tasks)[d] - Charge(s.tasks[i].requested, NodeRatio(node), d)
    {
    }
  }

  /** A task for which a node is chosen is bound to it and counted exactly when it fits or rough assignments are allowed; the
      node's counter goes up exactly when it does not fit; otherwise nothing changes. */
  lemma BoundIff(cfg: Config, alg: Algorithm, s: State, i: nat)
    requires GoodState(cfg, s) && i < |s.tasks| && CallScheduler(cfg, alg, s.tasks, s.tasks[i]).Chosen?
    ensures var node := CallScheduler(cfg, alg, s.tasks, s.tasks[i]).node;
      var o := AssignOne(cfg, alg, s, i);
      && o.Done?
      && (if FitsNode(cfg, s, i, node) || cfg.allowRough then
            o.count == 1 && IsBound(s.tasks, o.state.tasks, i, node) && o.state.rough.Keys == s.rough.Keys
            && (forall n :: n in s.rough ==>
                  o.state.rough[n] == s.rough[n] + if n == node && !FitsNode(cfg, s, i, node) then 1 else 0)
          else o.state == s && o.count == 0)
  {
    hide CallScheduler;
    hide ValidAssignment;
    hide FitsNode;
    FitsNodeIff(cfg, s, i, CallScheduler(cfg, alg, s.tasks, s.tasks[i]).node);
  }

  /** Without a node nothing changes, and an unknown node stops the step. */
  lemma UnboundIff(cfg: Config, alg: Algorithm, s: State, i: nat)
    requires GoodState(cfg, s) && i < |s.tasks| && !CallScheduler(cfg, alg, s.tasks, s.tasks[i]).Chosen?
    ensures AssignOne(cfg, alg, s, i) ==
      if Answers(cfg, alg, s.tasks, s.tasks[i]) == [] then Done(s, 0) else Crashed(s)
  {
    ChosenIff(cfg, alg, s.tasks, s.tasks[i]);
  }

  // ----- Many tasks -----

  /** Assigning touches the given tasks only, and nothing but their assignment. */
  ghost predicate OnlyAssigns(before: seq<TaskView>, after: seq<TaskView>, ids: seq<nat>) {
    && |after| == |before|
    && (forall j :: 0 <= j < |before| ==> after[j] == before[j].(assignment := after[j].assignment))
    && (forall j :: 0 <= j < |before| && j !in ids ==> after[j] == before[j])
  }

  lemma AssignsOne(cfg: Config, alg: Algorithm, s: State, i: nat)
    requires GoodState(cfg, s) && i < |s.tasks|
    ensures OnlyAssigns(s.tasks, AssignOne(cfg, alg, s, i).state.tasks, [i])
  {
    hide CallScheduler;
    hide ValidAssignment;
  }

  lemma {:induction false} AssignEachOnly(cfg: Config, alg: Algorithm, s: State, ids: seq<nat>, k: nat)
    requires GoodState(cfg, s) && Below(ids, |s.tasks|) && k <= |ids|
    ensures OnlyAssigns(s.tasks, AssignEach(cfg, alg, s, ids, k).state.tasks, ids)
    decreases |ids| - k
  {
    hide AssignOne;
    if k < |ids| {
      var o := AssignOne(cfg, alg, s, ids[k]);
      AssignsOne(cfg, alg, s, ids[k]);
      assert ids[k] in ids;
      assert OnlyAssigns(s.tasks, o.state.tasks, ids);
      if o.Done? {
        AssignEachOnly(cfg, alg, o.state, ids, k + 1);
      }
    }
  }

  /** The states between one task and the next: each task is assigned in the state that the one before left. */
  ghost predicate IsTrace(cfg: Config, alg: Algorithm, states: seq<State>, counts: seq<nat>, ids: seq<nat>, k: nat)
    requires k <= |ids|
  {
    && |states| == |ids| - k + 1 && |counts| == |ids| - k
    && forall j :: 0 <= j < |counts| ==> IsStep(cfg, alg, states[j], ids[k + j], states[j + 1], counts[j])
  }

  ghost predicate IsStep(cfg: Config, alg: Algorithm, s: State, i: nat, t: State, count: nat) {
    GoodState(cfg, s) && i < |s.tasks| && AssignOne(cfg, alg, s, i) == Done(t, count)
  }

  function SumOf(counts: seq<nat>): nat {
    if counts == [] then 0 else counts[0] + SumOf(counts[1..])
  }

  /** Every task to schedule is assigned in turn, and the counts add up. */
  lemma {:induction false} EachInTurn(cfg: Config, alg: Algorithm, s: State, ids: seq<nat>, k: nat)
    returns (states: seq<State>, counts: seq<nat>)
    requires GoodState(cfg, s) && Below(ids, |s.tasks|) && k <= |ids| && AssignEach(cfg, alg, s, ids, k).Done?
    ensures IsTrace(cfg, alg, states, counts, ids, k)
    ensures states[0] == s && states[|states| - 1] == AssignEach(cfg, alg, s, ids, k).state
    ensures SumOf(counts) == AssignEach(cfg, alg, s, ids, k).count
    decreases |ids| - k
  {
    hide AssignOne;
    if k == |ids| {
      states, counts := [s], [];
    } else {
      var o := AssignOne(cfg, alg, s, ids[k]);
      var more, rest := EachInTurn(cfg, alg, o.state, ids, k + 1);
      states, counts := [s] + more, [o.count] + rest;
      assert counts[1..] == rest;
      forall j | 0 <= j < |counts| ensures IsStep(cfg, alg, states[j], ids[k + j], states[j + 1], counts[j]) {
        if j > 0 {
          assert states[j] == more[j - 1] && states[j + 1] == more[j] && counts[j] == rest[j - 1];
          assert IsStep(cfg, alg, more[j - 1], ids[k + 1 + (j - 1)], more[j], rest[j - 1]);
        }
      }
    }
  }

  // ----- Leaving -----

  /** The only task of that name. */
  ghost predicate OnlyTask(tasks: seq<TaskView>, name: string, i: nat) {
    i < |tasks| && tasks[i].name == name && forall j :: 0 <= j < |tasks| && j != i ==> tasks[j].name != name
  }

  lemma {:induction false} NoTaskFound(tasks: seq<TaskView>, name: string)
    ensures IndicesNamed(tasks, name) == [] <==> forall j :: 0 <= j < |tasks| ==> tasks[j].name != name
  {
    if tasks != [] {
      NoTaskFound(tasks[..|tasks| - 1], name);
    }
  }

  lemma {:induction false} OnlyTaskFound(tasks: seq<TaskView>, name: string, i: nat)
    requires OnlyTask(tasks, name, i)
    ensures IndicesNamed(tasks, name) == [i]
  {
    var init := tasks[..|tasks| - 1];
    NoTaskFound(init, name);
    if i < |init| {
      assert OnlyTask(init, name, i);
      OnlyTaskFound(init, name, i);
    }
  }

  lemma {:induction false} OnlyTaskIsThere(tasks: seq<TaskView>, name: string) returns (i: nat)
    requires |IndicesNamed(tasks, name)| == 1
    ensures OnlyTask(tasks, name, i)
  {
    var init := tasks[..|tasks| - 1];
    NoTaskFound(init, name);
    if tasks[|tasks| - 1].name == name {
      i := |tasks| - 1;
    } else {
      i := OnlyTaskIsThere(init, name);
    }
  }

  lemma FoundTasks(tasks: seq<TaskView>, name: string)
    ensures |IndicesNamed(tasks, name)| == 1 <==> exists i :: 0 <= i < |tasks| && OnlyTask(tasks, name, i)
    ensures forall i :: 0 <= i < |tasks| && OnlyTask(tasks, name, i) ==> IndicesNamed(tasks, name) == [i]
  {
    if |IndicesNamed(tasks, name)| == 1 {
      var i := OnlyTaskIsThere(tasks, name);
    }
    forall i | 0 <= i < |tasks| && OnlyTask(tasks, name, i) ensures IndicesNamed(tasks, name) == [i] {
      OnlyTaskFound(tasks, name, i);
    }
  }

  /** The named tasks from `k` on have no node, all others are as they were. */
  ghost predicate HaveLeft(before: seq<TaskView>, after: seq<TaskView>, names: seq<string>, k: nat)
    requires k <= |names|
  {
    && |after| == |before|
    && forall j :: 0 <= j < |before| ==>
         after[j] == if before[j].name in names[k..] then before[j].(assignment := None) else before[j]
  }

  lemma UnassigningIs(s: State, name: string, i: nat, names: seq<string>, k: nat, after: seq<TaskView>)
    requires OnlyTask(s.tasks, name, i) && k < |names| && names[k] == name
    requires HaveLeft(Unassigning(s, i).tasks, after, names, k + 1)
    ensures HaveLeft(s.tasks, after, names, k)
  {
    assert names[k..] == [name] + names[k + 1..];
  }

  ghost predicate IsNamed(tasks: seq<TaskView>, name: string) { exists i :: 0 <= i < |tasks| && OnlyTask(tasks, name, i) }

  ghost predicate AllNamed(tasks: seq<TaskView>, names: seq<string>, k: nat) {
    forall j :: k <= j < |names| ==> IsNamed(tasks, names[j])
  }

  lemma SameNames(s: State, i: nat, name: string)
    requires i < |s.tasks|
    ensures forall j: nat :: OnlyTask(Unassigning(s, i).tasks, name, j) <==> OnlyTask(s.tasks, name, j)
    ensures IsNamed(Unassigning(s, i).tasks, name) <==> IsNamed(s.tasks, name)
  {
    var t := Unassigning(s, i).tasks;
    assert |t| == |s.tasks| && forall j :: 0 <= j < |t| ==> t[j].name == s.tasks[j].name;
    forall j: nat ensures OnlyTask(t, name, j) <==> OnlyTask(s.tasks, name, j) {
    }
  }

  /** Rescheduling succeeds exactly when every name is that of one task, and then just these tasks lose their nodes. */
  lemma {:induction false} LeavesIff(cfg: Config, s: State, names: seq<string>, k: nat)
    requires GoodState(cfg, s) && k <= |names|
    ensures var o := UnassignEach(cfg, s, names, k);
      && (o.Done? <==> AllNamed(s.tasks, names, k))
      && (o.Done? ==> o.count == 0 && o.state.rough == s.rough && HaveLeft(s.tasks, o.state.tasks, names, k))
    decreases |names| - k
  {
    hide OnlyTask;
    hide IndicesNamed;
    hide HaveLeft;
    if k < |names| {
      FoundTasks(s.tasks, names[k]);
      var found := IndicesNamed(s.tasks, names[k]);
      if |found| == 1 {
        var t := Unassigning(s, found[0]);
        LeavesIff(cfg, t, names, k + 1);
        forall j | 0 <= j < |names|
          ensures IsNamed(t.tasks, names[j]) <==> IsNamed(s.tasks, names[j])
        {
          SameNames(s, found[0], names[j]);
        }
        assert UnassignEach(cfg, s, names, k) == UnassignEach(cfg, t, names, k + 1);
        if UnassignEach(cfg, s, names, k).Done? {
          var i :| 0 <= i < |s.tasks| && OnlyTask(s.tasks, names[k], i);
          UnassigningIs(s, names[k], i, names, k, UnassignEach(cfg, s, names, k).state.tasks);
        }
      }
    } else {
      NoneLeft(s.tasks, names);
    }
  }

  lemma NoneLeft(tasks: seq<TaskView>, names: seq<string>)
    ensures HaveLeft(tasks, tasks, names, |names|)
  {
  }

  // ----- Arriving -----

  ghost predicate Arrives(cfg: Config, t: TaskView, v: TaskView) {
    if t.nodeName.None? then v == t
    else exists i :: 0 <= i < |cfg.nodes| && OnlyNode(cfg.nodes, t.nodeName.value, i)
                     && v == t.(assignment := Some(cfg.nodes[i]), nodeName := None)
  }

  ghost predicate CanArrive(cfg: Config, t: TaskView) {
    t.nodeName.Some? ==> exists i :: 0 <= i < |cfg.nodes| && OnlyNode(cfg.nodes, t.nodeName.value, i)
  }

  /** The tasks from `k` on are behind the others, those with a node name on that node. */
  ghost predicate HaveArrived(cfg: Config, before: seq<TaskView>, after: seq<TaskView>, newTasks: seq<TaskView>, k: nat)
    requires k <= |newTasks|
  {
    && |after| == |before| + |newTasks| - k && after[..|before|] == before
    && forall j :: k <= j < |newTasks| ==> Arrives(cfg, newTasks[j], after[|before| + j - k])
  }

  ghost predicate ToSchedule(before: nat, newTasks: seq<TaskView>, k: nat, ids: seq<nat>, arrived: seq<nat>)
    requires k <= |newTasks|
  {
    forall i :: i in arrived <==>
      i in ids || (before <= i < before + |newTasks| - k && newTasks[i - before + k].nodeName.None?)
  }

  lemma AddOneArrives(cfg: Config, s: State, t: TaskView)
    requires GoodState(cfg, s) && GoodTask(cfg, t)
    ensures var o := AddOne(cfg, s, t);
      && (o.Done? <==> CanArrive(cfg, t))
      && (o.Done? ==>
            |o.state.tasks| == |s.tasks| + 1 && o.state.tasks[..|s.tasks|] == s.tasks && o.state.rough == s.rough
            && Arrives(cfg, t, o.state.tasks[|s.tasks|]) && o.count == if t.nodeName.None? then 1 else 0)
  {
    hide OnlyNode;
    if t.nodeName.Some? {
      NodeByNameIff(cfg.nodes, t.nodeName.value);
    }
  }

  lemma OneMoreArrived(cfg: Config, before: seq<TaskView>, between: seq<TaskView>, after: seq<TaskView>,
                       newTasks: seq<TaskView>, k: nat)
    requires k < |newTasks| && |between| == |before| + 1 && between[..|before|] == before
    requires Arrives(cfg, newTasks[k], between[|before|]) && HaveArrived(cfg, between, after, newTasks, k + 1)
    ensures HaveArrived(cfg, before, after, newTasks, k)
  {
    hide Arrives;
    assert after[..|between|] == between;
    assert after[..|before|] == after[..|between|][..|before|];
    assert after[|before|] == after[..|between|][|before|];
  }

  /** Arriving succeeds exactly when every node name given is that of one node; the tasks without one are to be scheduled. */
  lemma {:induction false} ArrivesIff(cfg: Config, s: State, newTasks: seq<TaskView>, k: nat, ids: seq<nat>)
    requires GoodState(cfg, s) && GoodNewTasks(cfg, newTasks) && k <= |newTasks| && Below(ids, |s.tasks|)
    ensures var (o, arrived) := AddEach(cfg, s, newTasks, k, ids);
      && (o.Done? <==> forall j :: k <= j < |newTasks| ==> CanArrive(cfg, newTasks[j]))
      && (o.Done? ==> o.state.rough == s.rough && HaveArrived(cfg, s.tasks, o.state.tasks, newTasks, k)
                      && ToSchedule(|s.tasks|, newTasks, k, ids, arrived))
    decreases |newTasks| - k
  {
    hide AddOne;
    hide CanArrive;
    hide HaveArrived;
    hide Arrives;
    if k < |newTasks| {
      AddOneArrives(cfg, s, newTasks[k]);
      var o := AddOne(cfg, s, newTasks[k]);
      if o.Done? {
        var more := LeftToSchedule(ids, o.count, |s.tasks|);
        ArrivesIff(cfg, o.state, newTasks, k + 1, more);
        var r := AddEach(cfg, o.state, newTasks, k + 1, more);
        if r.0.Done? {
          OneMoreArrived(cfg, s.tasks, o.state.tasks, r.0.state.tasks, newTasks, k);
          OneMoreToSchedule(|s.tasks|, newTasks, k, ids, r.1);
        }
      }
    } else {
      NoneArrived(cfg, s.tasks, newTasks, ids);
    }
  }

  lemma OneMoreToSchedule(before: nat, newTasks: seq<TaskView>, k: nat, ids: seq<nat>, arrived: seq<nat>)
    requires k < |newTasks|
    requires var n := if newTasks[k].nodeName.None? then 1 else 0;
      ToSchedule(before + 1, newTasks, k + 1, LeftToSchedule(ids, n, before), arrived)
    ensures ToSchedule(before, newTasks, k, ids, arrived)
  {
  }

  lemma NoneArrived(cfg: Config, tasks: seq<TaskView>, newTasks: seq<TaskView>, ids: seq<nat>)
    ensures HaveArrived(cfg, tasks, tasks, newTasks, |newTasks|) && ToSchedule(|tasks|, newTasks, |newTasks|, ids, ids)
  {
  }

  // ----- A whole round -----

  /** Nothing is scheduled and nothing arrives: the algorithm may take tasks off their nodes. */
  ghost predicate Reschedules(cfg: Config, s: State, newTasks: seq<TaskView>) {
    newTasks == [] && !(cfg.retry && exists i :: 0 <= i < |s.tasks| && s.tasks[i].assignment.None?)
  }

  /** One round older: on its node unless it has outlived its duration. */
  function Older(t: TaskView): TaskView {
    t.(lifeTime := t.lifeTime + 1,
       assignment := if t.duration.Some? && t.lifeTime >= t.duration.value then None else t.assignment)
  }

  lemma {:induction false} UnassignedAre(tasks: seq<TaskView>)
    ensures forall i :: i in IndicesUnassigned(tasks) <==> 0 <= i < |tasks| && tasks[i].assignment.None?
  {
    if tasks != [] {
      UnassignedAre(tasks[..|tasks| - 1]);
    }
  }

  lemma ScheduledKeepsBound(cfg: Config, alg: Algorithm, s: State, arrived: seq<nat>, quiet: bool, i: nat)
    requires GoodState(cfg, s) && Below(arrived, |s.tasks|) && i < |s.tasks| && s.tasks[i].assignment.Some? && i !in arrived
    requires quiet ==> arrived == []
    requires Scheduled(cfg, alg, s, arrived, quiet).Done?
    ensures var after := Scheduled(cfg, alg, s, arrived, quiet).state.tasks;
      var rescheduled := quiet && !(cfg.retry && exists j :: 0 <= j < |s.tasks| && s.tasks[j].assignment.None?);
      && |after| == |s.tasks|
      && after[i] == if rescheduled && s.tasks[i].name in alg.reschedule(s.tasks) then s.tasks[i].(assignment := None)
                     else s.tasks[i]
  {
    hide IsNamed;
    UnassignedAre(s.tasks);
    var ids := if arrived == [] && cfg.retry then IndicesUnassigned(s.tasks) else arrived;
    if ids != [] {
      AssignEachOnly(cfg, alg, s, ids, 0);
      assert ids[0] in ids;
    } else if quiet {
      var names := alg.reschedule(s.tasks);
      LeavesIff(cfg, s, names, 0);
      assert names[0..] == names;
      if j :| 0 <= j < |s.tasks| && s.tasks[j].assignment.None? {
        assert j in IndicesUnassigned(s.tasks);
      }
    }
  }

  /** A task on a node gets older and stays there unless its duration has passed; it leaves without getting older when the
      round reschedules and the algorithm names it. */
  lemma BoundTaskAfterRound(cfg: Config, alg: Algorithm, s: State, newTasks: seq<TaskView>, i: nat)
    requires GoodState(cfg, s) && GoodNewTasks(cfg, newTasks) && Iterated(cfg, alg, s, newTasks).Done?
    requires i < |s.tasks| && s.tasks[i].assignment.Some?
    ensures var after := Iterated(cfg, alg, s, newTasks).state.tasks;
      && |after| == |s.tasks| + |newTasks|
      && after[i] == if Reschedules(cfg, s, newTasks) && s.tasks[i].name in alg.reschedule(s.tasks)
                     then s.tasks[i].(assignment := None) else Older(s.tasks[i])
  {
    hide Scheduled;
    hide AddEach;
    ArrivesIff(cfg, s, newTasks, 0, []);
    var (added, arrived) := AddEach(cfg, s, newTasks);
    assert added.state.tasks[i] == added.state.tasks[..|s.tasks|][i];
    if newTasks == [] {
      assert added.state.tasks == s.tasks by { assert added.state.tasks[..|s.tasks|] == added.state.tasks; }
      assert arrived == [] by { NothingArrived(|s.tasks|, arrived); }
    }
    ScheduledKeepsBound(cfg, alg, added.state, arrived, newTasks == [], i);
  }

  lemma IsIn(s: seq<nat>)
    ensures s != [] ==> s[0] in s
  {
  }

  lemma NothingArrived(before: nat, arrived: seq<nat>)
    requires ToSchedule(before, [], 0, [], arrived)
    ensures arrived == []
  {
    IsIn(arrived);
  }

  // ----- Runs -----

  /** No round stops at a failed assertion. */
  ghost predicate Completes(cfg: Config, s: State, rounds: seq<Round>)
    requires GoodState(cfg, s) && forall i :: 0 <= i < |rounds| ==> GoodNewTasks(cfg, rounds[i].newTasks)
    decreases |rounds|
  {
    rounds == [] ||
    (Iterated(cfg, rounds[0].alg, s, rounds[0].newTasks).Done?
     && Completes(cfg, Iterated(cfg, rounds[0].alg, s, rounds[0].newTasks).state, rounds[1..]))
  }

  ghost predicate NeverReschedules(rounds: seq<Round>) {
    forall i, tasks :: 0 <= i < |rounds| ==> rounds[i].alg.reschedule(tasks) == []
  }

  /** Under algorithms that never reschedule, a task stays on its node for its duration and leaves in the round after. */
  lemma {:induction false} StaysForItsDuration(cfg: Config, s: State, rounds: seq<Round>, i: nat)
    requires GoodState(cfg, s) && forall j :: 0 <= j < |rounds| ==> GoodNewTasks(cfg, rounds[j].newTasks)
    requires Completes(cfg, s, rounds) && NeverReschedules(rounds)
    requires i < |s.tasks| && s.tasks[i].assignment.Some?
    ensures var t, after := s.tasks[i], Run(cfg, s, rounds).tasks;
      && i < |after|
      && (t.duration.None? || t.lifeTime + |rounds| <= t.duration.value ==> after[i] == t.(lifeTime := t.lifeTime + |rounds|))
      && (t.duration.Some? && t.lifeTime <= t.duration.value && |rounds| == t.duration.value - t.lifeTime + 1 ==>
            after[i].assignment.None?)
    decreases |rounds|
  {
    hide Iterated;
    if rounds != [] {
      BoundTaskAfterRound(cfg, rounds[0].alg, s, rounds[0].newTasks, i);
      var o := Iterated(cfg, rounds[0].alg, s, rounds[0].newTasks);
      assert rounds[0].alg.reschedule(s.tasks) == [];
      if o.state.tasks[i].assignment.Some? {
        StaysForItsDuration(cfg, o.state, rounds[1..], i);
      } else if |rounds| == 1 {
        assert Run(cfg, o.state, rounds[1..]) == o.state;
      } else {
        TasksStay(cfg, o.state, rounds[1..]);
      }
    }
  }

  lemma {:induction false} TasksStay(cfg: Config, s: State, rounds: seq<Round>)
    requires GoodState(cfg, s) && forall j :: 0 <= j < |rounds| ==> GoodNewTasks(cfg, rounds[j].newTasks)
    requires Completes(cfg, s, rounds)
    ensures |Run(cfg, s, rounds).tasks| >= |s.tasks|
    decreases |rounds|
  {
    hide Iterated;
    if rounds != [] {
      RoundAdds(cfg, rounds[0].alg, s, rounds[0].newTasks);
      TasksStay(cfg, Iterated(cfg, rounds[0].alg, s, rounds[0].newTasks).state, rounds[1..]);
    }
  }

  lemma RoundAdds(cfg: Config, alg: Algorithm, s: State, newTasks: seq<TaskView>)
    requires GoodState(cfg, s) && GoodNewTasks(cfg, newTasks) && Iterated(cfg, alg, s, newTasks).Done?
    ensures |Iterated(cfg, alg, s, newTasks).state.tasks| == |s.tasks| + |newTasks|
  {
    hide AddEach;
    ArrivesIff(cfg, s, newTasks, 0, []);
    var (added, arrived) := AddEach(cfg, s, newTasks);
    ScheduledKeepsLength(cfg, alg, added.state, arrived, newTasks == []);
  }

  lemma ScheduledKeepsLength(cfg: Config, alg: Algorithm, s: State, arrived: seq<nat>, quiet: bool)
    requires GoodState(cfg, s) && Below(arrived, |s.tasks|)
    ensures |Scheduled(cfg, alg, s, arrived, quiet).state.tasks| == |s.tasks|
  {
  }
}
