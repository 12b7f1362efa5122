/** The Fit scheduling algorithm (wca/scheduler/algorithms/fit.py) on the simulator's own data: what it
    lets through, the simulator accepts, so its runs never need a rough assignment. */
module Fit {
  import opened Dicts
  import opened ResourceVectors
  import opened Accounting
  import opened Ordering
  import opened Simulator
  import opened SimulatorSafety

  // ----- What the simulator tells the algorithm -----

  const SEPARATOR := "___"

  /** `get_core_name`: the part of a task name before the first "___". */
  function CoreName(name: string): AppName {
    if |name| < 3 then name
    else if name[..3] == SEPARATOR then ""
    else [name[0]] + CoreName(name[1..])
  }

  lemma {:induction false} CoreNameOfSuffixed(app: string, suffix: string)
    requires '_' !in app
    ensures CoreName(app + SEPARATOR + suffix) == app
  {
    var name := app + SEPARATOR + suffix;
    if app == "" {
      assert name[..3] == SEPARATOR;
    } else {
      assert name[0] == app[0];
      assert name[..3][0] != SEPARATOR[0];
      assert name[1..] == app[1..] + SEPARATOR + suffix;
      CoreNameOfSuffixed(app[1..], suffix);
    }
  }

  /** The applications running on a node, in the order the data provider meets them. */
  function AppsOn(node: Node, tasks: seq<TaskView>): seq<AppName> {
    if tasks == [] then []
    else
      var last := tasks[|tasks| - 1];
      AppsOn(node, tasks[..|tasks| - 1]) + if last.assignment == Some(node) then [CoreName(last.name)] else []
  }

  /** What every application requests; the last task of an application decides. */
  function RequestedByApp(tasks: seq<TaskView>): map<AppName, Vector> {
    if tasks == [] then map[]
    else RequestedByApp(tasks[..|tasks| - 1])[CoreName(tasks[|tasks| - 1].name) := tasks[|tasks| - 1].requested]
  }

  /** All tasks of one application request the same. */
  ghost predicate Uniform(tasks: seq<TaskView>, spec: map<AppName, Vector>) {
    forall i :: 0 <= i < |tasks| ==> CoreName(tasks[i].name) in spec && tasks[i].requested == spec[CoreName(tasks[i].name)]
  }

  // ----- The algorithm -----

  /** The capacity Fit works with: CPUs of PMEM nodes are scaled. */
  function Scaled(node: Node, pmemNodes: set<string>, factor: real): Vector {
    if node.name in pmemNodes && CPU in node.initial then node.initial[CPU := node.initial[CPU] * factor] else node.initial
  }

  ghost predicate AppFits(capacity: Vector, counts: Dict<AppName, nat>, spec: map<AppName, Vector>, app: AppName)
    requires Capacity(capacity) && app in spec && spec[app].Keys == capacity.Keys
  {
    Fits(capacity, SumResources(spec[app], Used(capacity.Keys, counts, spec)))
  }

  method ComputeAppFits(capacity: Vector, counts: Dict<AppName, nat>, spec: map<AppName, Vector>, app: AppName)
    returns (fits: bool, missing: Vector)
    requires Capacity(capacity) && app in spec && spec[app].Keys == capacity.Keys
    requires Specified(capacity.Keys, counts, spec)
    ensures fits <==> AppFits(capacity, counts, spec, app)
    ensures fits <==> missing == map[]
  {
    var ratio := ReadWriteRatio(capacity);
    var used := UsedResourcesOnNode(capacity.Keys, counts, spec);
    var requestedAndUsed := SumResources(spec[app], used);
    var free;
    fits, missing, free := EnoughResourcesOnNode(capacity, requestedAndUsed, ratio);
  }

  datatype Parameters = Parameters(nodes: seq<Node>, pmemNodes: set<string>, factor: real)

  /** The node passes Fit's filter for the next copy of `app`. */
  ghost predicate NodePasses(p: Parameters, tasks: seq<TaskView>, app: AppName, node: Node) {
    var spec := RequestedByApp(tasks);
    var capacity := Scaled(node, p.pmemNodes, p.factor);
    && Capacity(capacity) && app in spec && spec[app].Keys == capacity.Keys
    && AppFits(capacity, CountApps(AppsOn(node, tasks)), spec, app)
  }

  ghost function Failed(p: Parameters, tasks: seq<TaskView>, app: AppName): set<string> {
    set i | 0 <= i < |p.nodes| && !NodePasses(p, tasks, app, p.nodes[i]) :: p.nodes[i].name
  }

  function AllZero(names: seq<string>): (r: seq<HostPriority>)
    ensures |r| == |names| && forall i :: 0 <= i < |r| ==> r[i] == HostPriority(names[i], 0)
  {
    seq(|names|, i requires 0 <= i < |names| => HostPriority(names[i], 0))
  }

  function Prioritized(names: seq<string>): seq<HostPriority> {
    AllZero(Sorted(names, StringLeq))
  }

  /** Fit as an algorithm of the simulator: it filters on the provider's view of the current tasks,
      gives every node priority zero and never reschedules. */
  ghost function FitAlgorithm(p: Parameters): Algorithm {
    Algorithm((tasks: seq<TaskView>, task: TaskView) => Failed(p, tasks, CoreName(task.name)),
              (tasks: seq<TaskView>, task: TaskView, names: seq<string>) => Prioritized(names),
              (tasks: seq<TaskView>) => [])
  }

  // ----- Agreement with the simulator -----

  lemma {:induction false} RequestedIsUniform(tasks: seq<TaskView>, spec: map<AppName, Vector>)
    requires Uniform(tasks, spec)
    ensures forall a :: a in RequestedByApp(tasks) ==> a in spec && RequestedByApp(tasks)[a] == spec[a]
    ensures forall i :: 0 <= i < |tasks| ==> CoreName(tasks[i].name) in RequestedByApp(tasks)
  {
    if tasks != [] {
      RequestedIsUniform(tasks[..|tasks| - 1], spec);
    }
  }

  lemma {:induction false} AppsAreRequested(node: Node, tasks: seq<TaskView>, spec: map<AppName, Vector>)
    requires Uniform(tasks, spec)
    ensures |AppsOn(node, tasks)| == |RequestsOn(node, tasks)|
    ensures forall k :: 0 <= k < |AppsOn(node, tasks)| ==>
      AppsOn(node, tasks)[k] in spec && spec[AppsOn(node, tasks)[k]] == RequestsOn(node, tasks)[k]
    ensures forall k :: 0 <= k < |AppsOn(node, tasks)| ==>
      exists i :: 0 <= i < |tasks| && CoreName(tasks[i].name) == AppsOn(node, tasks)[k]
  {
    if tasks != [] {
      AppsAreRequested(node, tasks[..|tasks| - 1], spec);
    }
  }

  lemma RequestsOfApps(node: Node, tasks: seq<TaskView>, spec: map<AppName, Vector>)
    requires Uniform(tasks, spec)
    ensures forall k :: 0 <= k < |AppsOn(node, tasks)| ==> AppsOn(node, tasks)[k] in RequestedByApp(tasks)
    ensures Requests(AppsOn(node, tasks), RequestedByApp(tasks)) == RequestsOn(node, tasks)
  {
    AppsAreRequested(node, tasks, spec);
    RequestedIsUniform(tasks, spec);
  }

  lemma CountedWithOneMore(apps: seq<AppName>, app: AppName)
    ensures CountApps(apps + [app]) == OneMore(CountApps(apps), app)
  {
    assert (apps + [app])[..|apps|] == apps;
  }

  lemma SumIsPointwise(a: Vector, b: Vector, c: Vector)
    requires a.Keys == b.Keys == c.Keys && forall d :: d in c ==> c[d] == b[d] + a[d]
    ensures SumResources(a, b) == c
  {
  }

  /** The usage Fit computes for one more copy of `app` is that of the longer list of applications. */
  lemma UsedWithOneMore(dims: set<ResourceType>, apps: seq<AppName>, spec: map<AppName, Vector>, app: AppName)
    requires app in spec && spec[app].Keys == dims
    ensures SumResources(spec[app], Used(dims, CountApps(apps), spec)) == Used(dims, CountApps(apps + [app]), spec)
  {
    var used, used' := Used(dims, CountApps(apps), spec), Used(dims, CountApps(apps + [app]), spec);
    CountedWithOneMore(apps, app);
    forall d | d in dims ensures used'[d] == used[d] + spec[app][d] {
      UsedInCountedOnce(CountApps(apps), spec, d, app);
    }
    SumIsPointwise(spec[app], used, used');
  }

  lemma LoweredIsLess(x: Vector, cpu: real)
    requires CPU in x && cpu <= x[CPU]
    ensures x[CPU := cpu].Keys == x.Keys && forall d :: d in x ==> x[CPU := cpu][d] <= x[d]
  {
  }

  lemma ScaledIsLess(node: Node, pmemNodes: set<string>, factor: real)
    requires NonNegative(node.initial) && factor <= 1.0
    ensures var scaled := Scaled(node, pmemNodes, factor);
            && scaled.Keys == node.initial.Keys
            && (forall d :: d in scaled ==> scaled[d] <= node.initial[d])
            && (forall d :: d in scaled && d != CPU ==> scaled[d] == node.initial[d])
  {
    if CPU in node.initial {
      AtMostOnce(node.initial[CPU], factor);
      LoweredIsLess(node.initial, node.initial[CPU] * factor);
    }
  }

  /** Hiding capacity outside the bandwidth only makes fitting harder. */
  lemma LessFitsImpliesFits(less: Vector, more: Vector, used: Vector)
    requires Capacity(less) && Capacity(more) && less.Keys == more.Keys == used.Keys
    requires forall d :: d in less ==> less[d] <= more[d]
    requires ReadWriteRatio(less) == ReadWriteRatio(more)
    requires Fits(less, used)
    ensures Fits(more, used)
  {
    RoomierRemainsFree(less, more, used, ReadWriteRatio(more));
  }

  lemma RatioDependsOnBandwidth(x: Vector, y: Vector)
    requires Capacity(x) && Capacity(y) && x.Keys == y.Keys
    requires MEMBW_READ in x ==> x[MEMBW_READ] == y[MEMBW_READ] && x[MEMBW_WRITE] == y[MEMBW_WRITE]
    ensures ReadWriteRatio(x) == ReadWriteRatio(y)
  {
  }

  lemma AtMostOnce(x: real, factor: real)
    requires x >= 0.0 && factor <= 1.0
    ensures x * factor <= x
  {
  }

  /** Subtracting the tasks of a node and one more request leaves what Fit sees as free. */
  lemma UnassignedAfterOneMore(node: Node, tasks: seq<TaskView>, i: nat, spec: map<AppName, Vector>)
    requires Compatible(node, tasks) && i < |tasks| && Uniform(tasks, spec)
    ensures var seen := RequestedByApp(tasks);
            var app := CoreName(tasks[i].name);
            && app in seen && seen[app].Keys == node.initial.Keys
            && SubtractAep(Unassigned(node, tasks), tasks[i].requested, NodeRatio(node))
               == Subtracted(node.initial, Used(node.initial.Keys, CountApps(AppsOn(node, tasks) + [app]), seen),
                             ReadWriteRatio(node.initial))
  {
    var seen := RequestedByApp(tasks);
    var app := CoreName(tasks[i].name);
    RequestedIsUniform(tasks, spec);
    RequestsOfApps(node, tasks, spec);
    AppsAreRequested(node, tasks, spec);
    var apps := AppsOn(node, tasks) + [app];
    assert seen[app] == tasks[i].requested;
    assert Requests(apps, seen) == RequestsOn(node, tasks) + [tasks[i].requested];
    SubtractAllNext(node.initial, RequestsOn(node, tasks), tasks[i].requested, NodeRatio(node));
    AccountingsAgree(node, apps, seen);
  }

  /** What passes Fit's filter passes the simulator's validation. */
  lemma PassingIsValid(p: Parameters, node: Node, tasks: seq<TaskView>, i: nat, spec: map<AppName, Vector>)
    requires Compatible(node, tasks) && i < |tasks| && Uniform(tasks, spec)
    requires NonNegative(node.initial) && p.factor <= 1.0
    requires NodePasses(p, tasks, CoreName(tasks[i].name), node)
    ensures ValidAssignment(node, tasks, tasks[i])
  {
    var seen, app := RequestedByApp(tasks), CoreName(tasks[i].name);
    var used := Used(node.initial.Keys, CountApps(AppsOn(node, tasks) + [app]), seen);
    UnassignedAfterOneMore(node, tasks, i, spec);
    UsedWithOneMore(node.initial.Keys, AppsOn(node, tasks), seen, app);
    assert Scaled(node, p.pmemNodes, p.factor).Keys == node.initial.Keys;
    ScaledIsLess(node, p.pmemNodes, p.factor);
    RatioDependsOnBandwidth(Scaled(node, p.pmemNodes, p.factor), node.initial);
    LessFitsImpliesFits(Scaled(node, p.pmemNodes, p.factor), node.initial, used);
    assert forall d :: d in node.initial ==> Remaining(node.initial, used, ReadWriteRatio(node.initial), d) >= 0.0;
  }

  // ----- Runs under Fit -----

  ghost predicate FitConfig(cfg: Config, p: Parameters) {
    && p.nodes == cfg.nodes && p.factor <= 1.0
    && (forall n :: n in cfg.nodes ==> NonNegative(n.initial))
    && (forall i, j :: 0 <= i < j < |cfg.nodes| ==> cfg.nodes[i].name != cfg.nodes[j].name)
  }

  /** A node chosen under Fit has passed Fit's filter. */
  lemma ChosenPasses(cfg: Config, p: Parameters, tasks: seq<TaskView>, task: TaskView)
    requires FitConfig(cfg, p)
    ensures var r := CallScheduler(cfg, FitAlgorithm(p), tasks, task);
            r.Chosen? ==> NodePasses(p, tasks, CoreName(task.name), r.node)
  {
    var alg := FitAlgorithm(p);
    var r := CallScheduler(cfg, alg, tasks, task);
    if r.Chosen? {
      var failed := Failed(p, tasks, CoreName(task.name));
      var filtered := Without(NodeNames(cfg.nodes), failed);
      var priorities := Prioritized(filtered);
      var best := priorities[FirstMax(priorities, (q: HostPriority) => q.score)].host;
      SortedSame(filtered, StringLeq);
      assert best in Sorted(filtered, StringLeq);
      assert r.node.name == best && best !in failed;
      var i :| 0 <= i < |cfg.nodes| && cfg.nodes[i] == r.node;
      assert p.nodes[i].name !in failed;
    }
  }

  lemma AssignOneNeverRough(cfg: Config, p: Parameters, s: State, i: nat, spec: map<AppName, Vector>)
    requires GoodState(cfg, s) && FitConfig(cfg, p) && i < |s.tasks| && Uniform(s.tasks, spec)
    ensures var o := AssignOne(cfg, FitAlgorithm(p), s, i);
            o.state.rough == s.rough && Uniform(o.state.tasks, spec)
  {
    hide NodePasses;
    hide CallScheduler;
    var r := CallScheduler(cfg, FitAlgorithm(p), s.tasks, s.tasks[i]);
    if r.Chosen? {
      ChosenPasses(cfg, p, s.tasks, s.tasks[i]);
      assert Compatible(r.node, s.tasks);
      PassingIsValid(p, r.node, s.tasks, i, spec);
      assert Assigned(cfg, s, i, r.node).0 == State(s.tasks[i := s.tasks[i].(assignment := Some(r.node))], s.rough);
    }
  }

  lemma {:induction false} AssignEachNeverRough(cfg: Config, p: Parameters, s: State, ids: seq<nat>, k: nat, spec: map<AppName, Vector>)
    requires GoodState(cfg, s) && FitConfig(cfg, p) && Below(ids, |s.tasks|) && k <= |ids| && Uniform(s.tasks, spec)
    ensures var o := AssignEach(cfg, FitAlgorithm(p), s, ids, k);
            o.state.rough == s.rough && Uniform(o.state.tasks, spec)
    decreases |ids| - k
  {
    if k < |ids| {
      AssignOneNeverRough(cfg, p, s, ids[k], spec);
      var o := AssignOne(cfg, FitAlgorithm(p), s, ids[k]);
      if o.Done? {
        AssignEachNeverRough(cfg, p, o.state, ids, k + 1, spec);
      }
    }
  }

  lemma {:induction false} AddEachKeepsUniform(cfg: Config, s: State, newTasks: seq<TaskView>, k: nat, ids: seq<nat>, spec: map<AppName, Vector>)
    requires GoodState(cfg, s) && GoodNewTasks(cfg, newTasks) && k <= |newTasks| && Below(ids, |s.tasks|)
    requires Uniform(s.tasks, spec) && Uniform(newTasks, spec)
    ensures var o := AddEach(cfg, s, newTasks, k, ids).0;
            o.state.rough == s.rough && Uniform(o.state.tasks, spec)
    decreases |newTasks| - k
  {
    if k < |newTasks| {
      var o := AddOne(cfg, s, newTasks[k]);
      assert Uniform(o.state.tasks, spec);
      if o.Done? {
        AddEachKeepsUniform(cfg, o.state, newTasks, k + 1, LeftToSchedule(ids, o.count, |s.tasks|), spec);
      }
    }
  }

  lemma IteratedNeverRough(cfg: Config, p: Parameters, s: State, newTasks: seq<TaskView>, spec: map<AppName, Vector>)
    requires GoodState(cfg, s) && FitConfig(cfg, p) && GoodNewTasks(cfg, newTasks)
    requires Uniform(s.tasks, spec) && Uniform(newTasks, spec)
    ensures var o := Iterated(cfg, FitAlgorithm(p), s, newTasks);
            o.state.rough == s.rough && Uniform(o.state.tasks, spec)
  {
    AddEachKeepsUniform(cfg, s, newTasks, 0, [], spec);
    var (added, arrived) := AddEach(cfg, s, newTasks);
    if added.Done? {
      ScheduledNeverRough(cfg, p, added.state, arrived, newTasks == [], spec);
      var o := Scheduled(cfg, FitAlgorithm(p), added.state, arrived, newTasks == []);
      AgedKeepsUniform(cfg, o.state, spec);
    }
  }

  lemma AgedKeepsUniform(cfg: Config, s: State, spec: map<AppName, Vector>)
    requires GoodState(cfg, s) && Uniform(s.tasks, spec)
    ensures Uniform(Aged(cfg, s).tasks, spec)
  {
  }

  lemma ScheduledNeverRough(cfg: Config, p: Parameters, s: State, arrived: seq<nat>, quiet: bool, spec: map<AppName, Vector>)
    requires GoodState(cfg, s) && FitConfig(cfg, p) && Below(arrived, |s.tasks|) && Uniform(s.tasks, spec)
    ensures var o := Scheduled(cfg, FitAlgorithm(p), s, arrived, quiet);
            o.state.rough == s.rough && Uniform(o.state.tasks, spec)
  {
    var ids := if arrived == [] && cfg.retry then IndicesUnassigned(s.tasks) else arrived;
    AssignEachNeverRough(cfg, p, s, ids, 0, spec);
  }

  /** Under Fit no run ever counts a rough assignment, even where they are allowed. */
  lemma {:induction false} RunUnderFitNeverRough(cfg: Config, p: Parameters, s: State, arrivals: seq<seq<TaskView>>, spec: map<AppName, Vector>)
    requires GoodState(cfg, s) && FitConfig(cfg, p) && Uniform(s.tasks, spec)
    requires forall i :: 0 <= i < |arrivals| ==> GoodNewTasks(cfg, arrivals[i]) && Uniform(arrivals[i], spec)
    ensures Run(cfg, s, FitRounds(p, arrivals)).rough == s.rough
    decreases |arrivals|
  {
    if arrivals != [] {
      IteratedNeverRough(cfg, p, s, arrivals[0], spec);
      var o := Iterated(cfg, FitAlgorithm(p), s, arrivals[0]);
      assert FitRounds(p, arrivals)[1..] == FitRounds(p, arrivals[1..]);
      if o.Done? {
        RunUnderFitNeverRough(cfg, p, o.state, arrivals[1..], spec);
      }
    }
  }

  ghost function FitRounds(p: Parameters, arrivals: seq<seq<TaskView>>): (r: seq<Round>)
    ensures |r| == |arrivals|
    ensures forall i :: 0 <= i < |r| ==> r[i] == Round(FitAlgorithm(p), arrivals[i])
  {
    seq(|arrivals|, i requires 0 <= i < |arrivals| => Round(FitAlgorithm(p), arrivals[i]))
  }
}
