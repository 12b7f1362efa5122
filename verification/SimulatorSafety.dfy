/** Node capacities are respected over whole runs of the simulator, whatever the algorithm answers. */
module SimulatorSafety {
  import opened Dicts
  import opened ResourceVectors
  import opened Accounting
  import opened Simulator

  /** What a task takes from dimension `d` of `node`. */
  function Weight(node: Node, t: TaskView, d: ResourceType): real
    requires Capacity(node.initial) && d in t.requested
  {
    if t.assignment == Some(node) then Charge(t.requested, NodeRatio(node), d) else 0.0
  }

  function Load(node: Node, tasks: seq<TaskView>, d: ResourceType): real
    requires Compatible(node, tasks) && d in node.initial
  {
    if tasks == [] then 0.0
    else Load(node, tasks[..|tasks| - 1], d) + Weight(node, tasks[|tasks| - 1], d)
  }

  lemma {:induction false} TotalOfRequestsIsLoad(node: Node, tasks: seq<TaskView>, d: ResourceType)
    requires Compatible(node, tasks) && d in node.initial
    ensures TotalCharge(RequestsOn(node, tasks), NodeRatio(node), d) == Load(node, tasks, d)
  {
    if tasks != [] {
      TotalOfRequestsIsLoad(node, tasks[..|tasks| - 1], d);
      var rest := RequestsOn(node, tasks[..|tasks| - 1]);
      assert (rest + [tasks[|tasks| - 1].requested])[..|rest|] == rest;
    }
  }

  /** The simulator's free resources are the capacity minus the load. */
  lemma UnassignedIsCapacityMinusLoad(node: Node, tasks: seq<TaskView>, d: ResourceType)
    requires Compatible(node, tasks) && d in node.initial
    ensures Unassigned(node, tasks)[d] == node.initial[d] - Load(node, tasks, d)
  {
    SubtractAllIsTotal(node.initial, RequestsOn(node, tasks), NodeRatio(node), d);
    TotalOfRequestsIsLoad(node, tasks, d);
  }

  lemma {:induction false} LoadAfterChange(node: Node, tasks: seq<TaskView>, i: nat, t: TaskView, d: ResourceType)
    requires Compatible(node, tasks) && d in node.initial && i < |tasks| && t.requested.Keys == node.initial.Keys
    ensures Load(node, tasks[i := t], d) == Load(node, tasks, d) - Weight(node, tasks[i], d) + Weight(node, t, d)
  {
    var init := tasks[..|tasks| - 1];
    if i == |tasks| - 1 {
      assert tasks[i := t][..|tasks| - 1] == init;
    } else {
      assert tasks[i := t][..|tasks| - 1] == init[i := t];
      LoadAfterChange(node, init, i, t, d);
    }
  }

  /** Tasks that only leave a node cannot raise its load. */
  lemma {:induction false} LoadOfFewer(node: Node, before: seq<TaskView>, after: seq<TaskView>, d: ResourceType)
    requires Compatible(node, before) && Compatible(node, after) && d in node.initial && |before| == |after|
    requires forall i :: 0 <= i < |before| ==> Weight(node, after[i], d) <= Weight(node, before[i], d)
    ensures Load(node, after, d) <= Load(node, before, d)
  {
    if before != [] {
      LoadOfFewer(node, before[..|before| - 1], after[..|after| - 1], d);
    }
  }

  ghost predicate NonNegativeRequests(tasks: seq<TaskView>) {
    forall i :: 0 <= i < |tasks| ==> NonNegative(tasks[i].requested)
  }

  lemma ChargeIsNonNegative(y: Vector, ratio: real, d: ResourceType)
    requires NonNegative(y) && d in y && ratio > 0.0
    ensures Charge(y, ratio, d) >= 0.0
  {
    if MEMBW_READ in y && MEMBW_WRITE in y {
      assert y[MEMBW_READ] / ratio >= 0.0;
      assert y[MEMBW_WRITE] * ratio >= 0.0;
    }
  }

  /** The free resources of `node` are within the tolerance of being non-negative. */
  ghost predicate Within(node: Node, tasks: seq<TaskView>)
    requires Compatible(node, tasks)
  {
    forall d :: d in node.initial ==> Unassigned(node, tasks)[d] > -TOLERANCE
  }

  /** No node is overcommitted unless a rough assignment was counted against it. */
  ghost predicate Safe(cfg: Config, s: State)
    requires GoodState(cfg, s)
  {
    && NonNegativeRequests(s.tasks)
    && (forall n :: n in cfg.nodes && s.rough[n] == 0 ==> Within(n, s.tasks))
  }

  lemma LighterStaysWithin(node: Node, before: seq<TaskView>, after: seq<TaskView>)
    requires Compatible(node, before) && Compatible(node, after)
    requires forall d :: d in node.initial ==> Load(node, after, d) <= Load(node, before, d)
    requires Within(node, before)
    ensures Within(node, after)
  {
    forall d | d in node.initial ensures Unassigned(node, after)[d] > -TOLERANCE {
      UnassignedIsCapacityMinusLoad(node, before, d);
      UnassignedIsCapacityMinusLoad(node, after, d);
      assert Unassigned(node, before)[d] > -TOLERANCE;
    }
  }

  lemma LeavingStaysWithin(node: Node, tasks: seq<TaskView>, i: nat, t: TaskView)
    requires Compatible(node, tasks) && i < |tasks| && NonNegativeRequests(tasks)
    requires t.requested == tasks[i].requested
    requires t.assignment == Some(node) ==> tasks[i].assignment == Some(node)
    requires Within(node, tasks)
    ensures Within(node, tasks[i := t])
  {
    assert NonNegative(tasks[i].requested);
    forall d | d in node.initial ensures Load(node, tasks[i := t], d) <= Load(node, tasks, d) {
      LoadAfterChange(node, tasks, i, t, d);
      ChargeIsNonNegative(t.requested, NodeRatio(node), d);
    }
    LighterStaysWithin(node, tasks, tasks[i := t]);
  }

  /** A validated assignment leaves its node within capacity. */
  lemma ValidatedStaysWithin(node: Node, tasks: seq<TaskView>, i: nat)
    requires Compatible(node, tasks) && i < |tasks| && NonNegativeRequests(tasks)
    requires ValidAssignment(node, tasks, tasks[i])
    ensures Within(node, tasks[i := tasks[i].(assignment := Some(node))])
  {
    var t := tasks[i].(assignment := Some(node));
    assert NonNegative(tasks[i].requested);
    AcceptableMeans(SubtractAep(Unassigned(node, tasks), t.requested, NodeRatio(node)));
    forall d | d in node.initial ensures Unassigned(node, tasks[i := t])[d] > -TOLERANCE {
      assert SubtractAep(Unassigned(node, tasks), t.requested, NodeRatio(node))[d] > -TOLERANCE;
      UnassignedIsCapacityMinusLoad(node, tasks, d);
      UnassignedIsCapacityMinusLoad(node, tasks[i := t], d);
      LoadAfterChange(node, tasks, i, t, d);
      ChargeIsNonNegative(t.requested, NodeRatio(node), d);
    }
  }

  lemma AssignedStaysSafe(cfg: Config, s: State, i: nat, node: Node)
    requires GoodState(cfg, s) && i < |s.tasks| && node in cfg.nodes && Safe(cfg, s)
    ensures Safe(cfg, Assigned(cfg, s, i, node).0)
    ensures !cfg.allowRough ==> Assigned(cfg, s, i, node).0.rough == s.rough
  {
    var s' := Assigned(cfg, s, i, node).0;
    if s' != s {
      var t := s.tasks[i].(assignment := Some(node));
      forall n | n in cfg.nodes && s'.rough[n] == 0 ensures Within(n, s'.tasks) {
        if n == node {
          ValidatedStaysWithin(n, s.tasks, i);
        } else {
          LeavingStaysWithin(n, s.tasks, i, t);
        }
      }
    }
  }

  lemma AssignOneStaysSafe(cfg: Config, alg: Algorithm, s: State, i: nat)
    requires GoodState(cfg, s) && i < |s.tasks| && Safe(cfg, s)
    ensures Safe(cfg, AssignOne(cfg, alg, s, i).state)
    ensures !cfg.allowRough ==> AssignOne(cfg, alg, s, i).state.rough == s.rough
  {
    var reply := CallScheduler(cfg, alg, s.tasks, s.tasks[i]);
    if reply.Chosen? {
      AssignedStaysSafe(cfg, s, i, reply.node);
    }
  }

  lemma {:induction false} AssignEachStaysSafe(cfg: Config, alg: Algorithm, s: State, ids: seq<nat>, k: nat)
    requires GoodState(cfg, s) && Below(ids, |s.tasks|) && k <= |ids| && Safe(cfg, s)
    ensures Safe(cfg, AssignEach(cfg, alg, s, ids, k).state)
    ensures !cfg.allowRough ==> AssignEach(cfg, alg, s, ids, k).state.rough == s.rough
    decreases |ids| - k
  {
    if k < |ids| {
      AssignOneStaysSafe(cfg, alg, s, ids[k]);
      var o := AssignOne(cfg, alg, s, ids[k]);
      if o.Done? {
        AssignEachStaysSafe(cfg, alg, o.state, ids, k + 1);
      }
    }
  }

  lemma {:induction false} UnassignEachStaysSafe(cfg: Config, s: State, names: seq<string>, k: nat)
    requires GoodState(cfg, s) && Safe(cfg, s) && k <= |names|
    ensures Safe(cfg, UnassignEach(cfg, s, names, k).state)
    ensures UnassignEach(cfg, s, names, k).state.rough == s.rough
    decreases |names| - k
  {
    if k < |names| {
      var found := IndicesNamed(s.tasks, names[k]);
      if |found| == 1 {
        var i := found[0];
        var t := s.tasks[i].(assignment := None);
        forall n | n in cfg.nodes && s.rough[n] == 0 ensures Within(n, s.tasks[i := t]) {
          LeavingStaysWithin(n, s.tasks, i, t);
        }
        UnassignEachStaysSafe(cfg, State(s.tasks[i := t], s.rough), names, k + 1);
      }
    }
  }

  lemma AgedIsLighter(node: Node, tasks: seq<TaskView>, d: ResourceType)
    requires Compatible(node, tasks) && Compatible(node, AllUpdated(tasks)) && NonNegativeRequests(tasks) && d in node.initial
    ensures Load(node, AllUpdated(tasks), d) <= Load(node, tasks, d)
  {
    forall i | 0 <= i < |tasks| ensures Weight(node, AllUpdated(tasks)[i], d) <= Weight(node, tasks[i], d) {
      ChargeIsNonNegative(tasks[i].requested, NodeRatio(node), d);
    }
    LoadOfFewer(node, tasks, AllUpdated(tasks), d);
  }

  lemma AgedStaysWithin(node: Node, tasks: seq<TaskView>)
    requires Compatible(node, tasks) && NonNegativeRequests(tasks) && Within(node, tasks)
    ensures Compatible(node, AllUpdated(tasks)) && Within(node, AllUpdated(tasks))
  {
    forall d | d in node.initial ensures Load(node, AllUpdated(tasks), d) <= Load(node, tasks, d) {
      AgedIsLighter(node, tasks, d);
    }
    LighterStaysWithin(node, tasks, AllUpdated(tasks));
  }

  lemma AgedStaysSafe(cfg: Config, s: State)
    requires GoodState(cfg, s) && Safe(cfg, s)
    ensures Safe(cfg, Aged(cfg, s))
  {
    forall n | n in cfg.nodes && s.rough[n] == 0 ensures Within(n, Aged(cfg, s).tasks) {
      AgedStaysWithin(n, s.tasks);
    }
  }

  /** Tasks that arrive unassigned, with a non-negative request and no pre-set node. */
  ghost predicate Unbound(newTasks: seq<TaskView>) {
    && NonNegativeRequests(newTasks)
    && (forall i :: 0 <= i < |newTasks| ==> newTasks[i].assignment.None? && newTasks[i].nodeName.None?)
  }

  lemma {:induction false} AddEachStaysSafe(cfg: Config, s: State, newTasks: seq<TaskView>, k: nat, ids: seq<nat>)
    requires GoodState(cfg, s) && GoodNewTasks(cfg, newTasks) && k <= |newTasks| && Below(ids, |s.tasks|)
    requires Unbound(newTasks) && Safe(cfg, s)
    ensures var o := AddEach(cfg, s, newTasks, k, ids).0;
            o.Done? && Safe(cfg, o.state) && o.state.rough == s.rough
    decreases |newTasks| - k
  {
    if k < |newTasks| {
      var tasks := s.tasks + [newTasks[k]];
      forall n | n in cfg.nodes && s.rough[n] == 0 ensures Within(n, tasks) {
        assert tasks[..|tasks| - 1] == s.tasks;
        LighterStaysWithin(n, s.tasks, tasks);
      }
      AddEachStaysSafe(cfg, s.(tasks := tasks), newTasks, k + 1, ids + [|s.tasks|]);
    }
  }

  /** One round keeps every node safe; without rough assignments the counters never move. */
  lemma IteratedStaysSafe(cfg: Config, alg: Algorithm, s: State, newTasks: seq<TaskView>)
    requires GoodState(cfg, s) && GoodNewTasks(cfg, newTasks) && Unbound(newTasks) && Safe(cfg, s)
    ensures Safe(cfg, Iterated(cfg, alg, s, newTasks).state)
    ensures !cfg.allowRough ==> Iterated(cfg, alg, s, newTasks).state.rough == s.rough
  {
    AddEachStaysSafe(cfg, s, newTasks, 0, []);
    var (added, arrived) := AddEach(cfg, s, newTasks);
    ScheduledStaysSafe(cfg, alg, added.state, arrived, newTasks == []);
    var o := Scheduled(cfg, alg, added.state, arrived, newTasks == []);
    AgedStaysSafe(cfg, o.state);
  }

  lemma ScheduledStaysSafe(cfg: Config, alg: Algorithm, s: State, arrived: seq<nat>, quiet: bool)
    requires GoodState(cfg, s) && Below(arrived, |s.tasks|) && Safe(cfg, s)
    ensures Safe(cfg, Scheduled(cfg, alg, s, arrived, quiet).state)
    ensures !cfg.allowRough ==> Scheduled(cfg, alg, s, arrived, quiet).state.rough == s.rough
  {
    var ids := if arrived == [] && cfg.retry then IndicesUnassigned(s.tasks) else arrived;
    AssignEachStaysSafe(cfg, alg, s, ids, 0);
    UnassignEachStaysSafe(cfg, s, alg.reschedule(s.tasks), 0);
  }

  // ----- Whole runs -----

  datatype Round = Round(alg: Algorithm, newTasks: seq<TaskView>)

  /** A sequence of `iterate` calls; a failed assertion ends the run. */
  function Run(cfg: Config, s: State, rounds: seq<Round>): (r: State)
    requires GoodState(cfg, s) && forall i :: 0 <= i < |rounds| ==> GoodNewTasks(cfg, rounds[i].newTasks)
    ensures GoodState(cfg, r)
    decreases |rounds|
  {
    if rounds == [] then s
    else
      match Iterated(cfg, rounds[0].alg, s, rounds[0].newTasks)
      case Crashed(s') => s'
      case Done(s', _) => Run(cfg, s', rounds[1..])
  }

  lemma {:induction false} RunStaysSafe(cfg: Config, s: State, rounds: seq<Round>)
    requires GoodState(cfg, s) && Safe(cfg, s)
    requires forall i :: 0 <= i < |rounds| ==> GoodNewTasks(cfg, rounds[i].newTasks) && Unbound(rounds[i].newTasks)
    ensures Safe(cfg, Run(cfg, s, rounds))
    ensures !cfg.allowRough ==> Run(cfg, s, rounds).rough == s.rough
    decreases |rounds|
  {
    if rounds != [] {
      IteratedStaysSafe(cfg, rounds[0].alg, s, rounds[0].newTasks);
      var o := Iterated(cfg, rounds[0].alg, s, rounds[0].newTasks);
      if o.Done? {
        RunStaysSafe(cfg, o.state, rounds[1..]);
      }
    }
  }

  function Initial(cfg: Config): (s: State)
    ensures s.tasks == [] && forall n :: n in cfg.nodes ==> n in s.rough && s.rough[n] == 0
  {
    State([], map n | n in cfg.nodes :: 0)
  }

  /** From an empty cluster, no run of any algorithms ever overcommits a node: every free amount stays
      above the single tolerance, which does not add up over the rounds. */
  lemma {:induction false} CapacityIsNeverExceeded(cfg: Config, rounds: seq<Round>, node: Node, d: ResourceType)
    requires !cfg.allowRough && WellFormed(cfg, []) && node in cfg.nodes && d in node.initial
    requires forall n :: n in cfg.nodes ==> NonNegative(n.initial)
    requires forall i :: 0 <= i < |rounds| ==> GoodNewTasks(cfg, rounds[i].newTasks) && Unbound(rounds[i].newTasks)
    ensures Unassigned(node, Run(cfg, Initial(cfg), rounds).tasks)[d] > -TOLERANCE
  {
    hide Run;
    hide Unassigned;
    var s := Initial(cfg);
    InitialIsSafe(cfg);
    RunStaysSafe(cfg, s, rounds);
    assert Within(node, Run(cfg, s, rounds).tasks);
  }

  lemma InitialIsSafe(cfg: Config)
    requires WellFormed(cfg, []) && forall n :: n in cfg.nodes ==> NonNegative(n.initial)
    ensures Safe(cfg, Initial(cfg))
  {
    forall n | n in cfg.nodes ensures Within(n, Initial(cfg).tasks) {
    }
  }
}
